/**
 * `ArticleService`: reads, creation, update and deletion of articles, each a
 * single delegated call on the article repository, which is a parameter.
 * Reads wrap a repository error; writes return it unchanged.
 */
module ArticleService {
  import opened Wrappers
  import opened Articles

  /** A call on the article repository. */
  datatype RepositoryCall =
    | SelectAll
    | SelectById(id: int)
    | InsertArticle(article: Article, owner: int)
    | UpdateRow(id: int, article: Article)
    | DeleteRow(id: int)

  /** `ArticleRepositoryInterface`: each write answers with an error or None. */
  datatype ArticleRepository = ArticleRepository(
    getAll: Result<seq<Article>, string>,
    getById: int -> Result<Article, string>,
    store: (Article, int) -> Option<string>,
    update: (int, Article) -> Option<string>,
    delete: int -> Option<string>)

  /** The wrapper the read operations put around a repository error. */
  datatype ServiceError = GettingArticles(cause: string)

  /** The one repository call an operation makes, and what the operation returns. */
  datatype Delegation<T> = Delegation(call: RepositoryCall, result: T)

  /** `GetAllArticles`: the repository's list on success, its error wrapped otherwise. */
  function GetAllArticles(repo: ArticleRepository): (d: Delegation<Result<seq<Article>, ServiceError>>)
    ensures d.call == SelectAll
    ensures repo.getAll.Success? ==> d.result == Success(repo.getAll.value)
    ensures repo.getAll.Failure? ==> d.result == Failure(GettingArticles(repo.getAll.error))
  {
    match repo.getAll
    case Success(articles) => Delegation(SelectAll, Success(articles))
    case Failure(e) => Delegation(SelectAll, Failure(GettingArticles(e)))
  }

  /** `GetById`: the repository's article on success, its error wrapped otherwise. */
  function GetById(repo: ArticleRepository, id: int): (d: Delegation<Result<Article, ServiceError>>)
    ensures d.call == SelectById(id)
    ensures repo.getById(id).Success? ==> d.result == Success(repo.getById(id).value)
    ensures repo.getById(id).Failure? ==> d.result == Failure(GettingArticles(repo.getById(id).error))
  {
    match repo.getById(id)
    case Success(article) => Delegation(SelectById(id), Success(article))
    case Failure(e) => Delegation(SelectById(id), Failure(GettingArticles(e)))
  }

  /**
   * `CreateArticle`: the stored row takes title and content from the request unchanged and
   * the two clock stamps; the owner is the authenticated `userId`, passed beside the row
   * (the row's own user id and id stay zero). The repository's error is returned unchanged.
   */
  function CreateArticle(repo: ArticleRepository, req: ArticleRequest, userId: int, createdAt: string, updatedAt: string)
    : (d: Delegation<Option<string>>)
    ensures d.call.InsertArticle? && d.call.owner == userId
    ensures d.call.article.title == req.title && d.call.article.content == req.content
    ensures d.call.article.id == 0 && d.call.article.userId == 0
    ensures d.call.article.likes == 0 && d.call.article.comments == []
    ensures d.call.article.createdAt == createdAt && d.call.article.updatedAt == updatedAt
    ensures d.result == repo.store(d.call.article, userId)
  {
    var row := Article(0, 0, req.title, req.content, 0, [], createdAt, updatedAt);
    Delegation(InsertArticle(row, userId), repo.store(row, userId))
  }

  /**
   * `UpdateArticle`: writes title, content and the update stamp for `id`, with the creation
   * stamp left empty; nobody's identity is involved, so no ownership is checked.
   */
  function UpdateArticle(repo: ArticleRepository, id: int, req: ArticleRequest, updatedAt: string)
    : (d: Delegation<Option<string>>)
    ensures d.call.UpdateRow? && d.call.id == id && d.call.article.id == id
    ensures d.call.article.title == req.title && d.call.article.content == req.content
    ensures d.call.article.createdAt == "" && d.call.article.updatedAt == updatedAt
    ensures d.call.article.userId == 0
    ensures d.result == repo.update(id, d.call.article)
  {
    var row := Article(id, 0, req.title, req.content, 0, [], "", updatedAt);
    Delegation(UpdateRow(id, row), repo.update(id, row))
  }

  /** `DeleteArticle`: deletes `id` with no ownership check and returns the repository's error unchanged. */
  function DeleteArticle(repo: ArticleRepository, id: int): (d: Delegation<Option<string>>)
    ensures d.call == DeleteRow(id)
    ensures d.result == repo.delete(id)
  {
    Delegation(DeleteRow(id), repo.delete(id))
  }

  /**
   * Update and delete never consult the stored articles: two repositories that hold
   * different rows (so different owners) but answer writes alike give the same outcome,
   * whoever the caller is.
   */
  lemma MutationsIgnoreOwnership(r1: ArticleRepository, r2: ArticleRepository, id: int, req: ArticleRequest, updatedAt: string)
    requires r1.update == r2.update && r1.delete == r2.delete
    ensures UpdateArticle(r1, id, req, updatedAt) == UpdateArticle(r2, id, req, updatedAt)
    ensures DeleteArticle(r1, id) == DeleteArticle(r2, id)
  {
  }
}
