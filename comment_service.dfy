/** `CommentService.CreateComment`: build the comment row and store it through the repository, a parameter. */
module CommentService {
  import opened Wrappers
  import opened Comments

  /** The repository call: the row, and the article id it is inserted under. */
  datatype InsertComment = InsertComment(comment: Comment, articleId: int)

  /** `CommentRepositoryInterface.CreateComment`: an error or None. */
  datatype CommentRepository = CommentRepository(create: (Comment, int) -> Option<string>)

  datatype Created = Created(call: InsertComment, result: Result<Comment, string>)

  /**
   * `CreateComment`: the row carries the article id and the author id it was given and the
   * request's content; the repository gets the same article id. On success the row itself
   * is returned, with id still zero; a repository error is returned unchanged and no comment.
   */
  function CreateComment(repo: CommentRepository, req: CommentRequest, articleId: int, userId: int,
                         createdAt: string, updatedAt: string): (c: Created)
    ensures c.call.articleId == articleId
    ensures c.call.comment.articleId == articleId && c.call.comment.userId == userId
    ensures c.call.comment.content == req.content
    ensures c.call.comment.createdAt == createdAt && c.call.comment.updatedAt == updatedAt
    ensures repo.create(c.call.comment, articleId).None? ==>
      c.result.Success? && c.result.value == c.call.comment && c.result.value.id == 0
    ensures repo.create(c.call.comment, articleId).Some? ==>
      c.result == Failure(repo.create(c.call.comment, articleId).value)
  {
    var row := Comment(0, articleId, userId, req.content, createdAt, updatedAt);
    var call := InsertComment(row, articleId);
    match repo.create(row, articleId)
    case Some(e) => Created(call, Failure(e))
    case None => Created(call, Success(row))
  }
}
