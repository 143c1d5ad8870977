/** The article entity and the article request with its `Validate` method. */
module Articles {
  import opened Wrappers
  import Text
  import opened Validation
  import opened Comments

  /** A row of the `articles` table, with the like count and comments a read may attach. */
  datatype Article = Article(
    id: int,
    userId: int,
    title: string,
    content: string,
    likes: int,
    comments: seq<Comment>,
    createdAt: string,
    updatedAt: string)

  datatype ArticleRequest = ArticleRequest(title: string, content: string)

  /** `ArticleRequest` as the validator walks it: title `required,min=3,max=40`, content `required,min=10,max=1000`. */
  function ArticleFields(a: ArticleRequest): seq<FieldSpec>
  {
    [ FieldSpec("Title", a.title, [Required, Min(3), Max(40)]),
      FieldSpec("Content", a.content, [Required, Min(10), Max(1000)]) ]
  }

  predicate AcceptableArticle(a: ArticleRequest)
  {
    3 <= |a.title| <= 40 && 10 <= |a.content| <= 1000
  }

  /** An article passes validation exactly when the title has 3 to 40 characters and the content 10 to 1000. */
  lemma ArticleConstraints(a: ArticleRequest, isEmail: string -> bool)
    ensures Failures(ArticleFields(a), isEmail) == [] <==> AcceptableArticle(a)
  {
    var fields := ArticleFields(a);
    NoFailuresIff(fields, isEmail);
    if AcceptableArticle(a) {
      assert AllSatisfied(fields, isEmail);
    } else if |a.title| < 3 {
      assert !Satisfies(fields[0].value, fields[0].rules[1], isEmail);
    } else if |a.title| > 40 {
      assert !Satisfies(fields[0].value, fields[0].rules[2], isEmail);
    } else if |a.content| < 10 {
      assert !Satisfies(fields[1].value, fields[1].rules[1], isEmail);
    } else {
      assert !Satisfies(fields[1].value, fields[1].rules[2], isEmail);
    }
  }

  /** `ArticleRequest.Validate`: no error for an acceptable request, else one "Field <field> <tag>" line per failure. */
  method ValidateArticleRequest(a: ArticleRequest, isEmail: string -> bool) returns (err: Option<string>)
    ensures err.None? <==> AcceptableArticle(a)
    ensures err.Some? ==> err.value == Render(Terse, Failures(ArticleFields(a), isEmail))
    ensures err.Some? ==> Text.Split(err.value, '\n') == Lines(Terse, Failures(ArticleFields(a), isEmail)) + [""]
  {
    var errs := Failures(ArticleFields(a), isEmail);
    ArticleConstraints(a, isEmail);
    if errs == [] {
      return None;
    }
    var msg := WriteFieldTagMessage(errs);
    FailuresHaveNoNewline(ArticleFields(a), isEmail);
    RenderSplitsIntoLines(Terse, errs);
    return Some(msg);
  }
}
