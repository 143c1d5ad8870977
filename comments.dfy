/** The comment entity and the comment request with its `Validate` method. */
module Comments {
  import opened Wrappers
  import Text
  import opened Validation

  /** A row of the `comments` table. */
  datatype Comment = Comment(
    id: int,
    articleId: int,
    userId: int,
    content: string,
    createdAt: string,
    updatedAt: string)

  datatype CommentRequest = CommentRequest(content: string)

  /** `CommentRequest` as the validator walks it: content `required,min=10,max=1000`. */
  function CommentFields(c: CommentRequest): seq<FieldSpec>
  {
    [ FieldSpec("Content", c.content, [Required, Min(10), Max(1000)]) ]
  }

  predicate AcceptableComment(c: CommentRequest)
  {
    10 <= |c.content| <= 1000
  }

  /** A comment passes validation exactly when its content has 10 to 1000 characters. */
  lemma CommentConstraints(c: CommentRequest, isEmail: string -> bool)
    ensures Failures(CommentFields(c), isEmail) == [] <==> AcceptableComment(c)
  {
    var fields := CommentFields(c);
    NoFailuresIff(fields, isEmail);
    if AcceptableComment(c) {
      assert AllSatisfied(fields, isEmail);
    } else if |c.content| < 10 {
      assert !Satisfies(fields[0].value, fields[0].rules[1], isEmail);
    } else {
      assert !Satisfies(fields[0].value, fields[0].rules[2], isEmail);
    }
  }

  /** `CommentRequest.Validate`: no error for acceptable content, else "Field Content <tag>" and a newline. */
  method ValidateCommentRequest(c: CommentRequest, isEmail: string -> bool) returns (err: Option<string>)
    ensures err.None? <==> AcceptableComment(c)
    ensures err.Some? ==> err.value == Render(Terse, Failures(CommentFields(c), isEmail))
    ensures err.Some? ==> Text.Split(err.value, '\n') == Lines(Terse, Failures(CommentFields(c), isEmail)) + [""]
  {
    var errs := Failures(CommentFields(c), isEmail);
    CommentConstraints(c, isEmail);
    if errs == [] {
      return None;
    }
    var msg := WriteFieldTagMessage(errs);
    FailuresHaveNoNewline(CommentFields(c), isEmail);
    RenderSplitsIntoLines(Terse, errs);
    return Some(msg);
  }
}
