/** The write use cases: each runs its repository checks in a fixed order, stops at the
    first one that rejects and hands its error back unchanged, and changes the tables
    only when every check passed. */
module UseCases {
  import opened Common
  import CE = CommentEntity
  import opened Repository

  datatype ThreadParam = ThreadParam(threadId: Id)
  datatype CommentParam = CommentParam(threadId: Id, commentId: Id)
  datatype ReplyParam = ReplyParam(threadId: Id, commentId: Id, replyId: Id)

  /** The entity payload the add-comment use case builds: the owner is the actor and the
      thread is the route parameter; only the content comes from the request payload. */
  function CommentPayload(payload: CE.Payload, auth: Auth, param: ThreadParam): (p: CE.Payload)
    ensures CE.Field(p, "owner") == CE.Str(auth.id) && CE.Field(p, "thread") == CE.Str(param.threadId)
    ensures CE.Field(p, "content") == CE.Field(payload, "content")
  {
    map["owner" := CE.Str(auth.id), "thread" := CE.Str(param.threadId), "content" := CE.Field(payload, "content")]
  }

  class AddCommentUseCase {
    const repository: ForumRepository

    constructor (repository: ForumRepository)
      ensures this.repository == repository
    {
      this.repository := repository;
    }

    /** Verify the thread, build the AddComment entity, persist it, return what the
        repository answered. */
    method Execute(payload: CE.Payload, auth: Auth, param: ThreadParam, idSuffix: string)
      returns (r: Result<AddedComment>)
      requires repository.Valid()
      requires CommentId(idSuffix) !in repository.comments
      modifies repository
      ensures repository.Valid()
      ensures
        var db := old(repository.Contents());
        var entity := CE.Construct(CommentPayload(payload, auth, param));
        if !ThreadAvailable(db, param.threadId) then
          r == Err(NotFound(ThreadResource)) &&
          repository.log == old(repository.log) + [Call.VerifyAvailableThread(param.threadId)] &&
          repository.Contents() == db
        else if entity.Err? then
          r == Err(entity.error) &&
          repository.log == old(repository.log) + [Call.VerifyAvailableThread(param.threadId)] &&
          repository.Contents() == db
        else
          entity.value == CE.AddComment(CE.Field(payload, "content").s, auth.id, param.threadId) &&
          r == Ok(AddedComment(CommentId(idSuffix), entity.value.content, auth.id)) &&
          repository.log == old(repository.log) +
            [Call.VerifyAvailableThread(param.threadId), AddCommentCall(entity.value)] &&
          repository.Contents() == InsertComment(db, CommentId(idSuffix), entity.value)
    {
      var checked := repository.VerifyAvailableThread(param.threadId);
      if checked.Fail? {
        return Err(checked.error);
      }
      var entity := CE.Construct(CommentPayload(payload, auth, param));
      if entity.Err? {
        return Err(entity.error);
      }
      var added := repository.AddComment(entity.value, idSuffix);
      return Ok(added);
    }
  }

  class AddReplyUseCase {
    const repository: ForumRepository

    constructor (repository: ForumRepository)
      ensures this.repository == repository
    {
      this.repository := repository;
    }

    /** Verify the thread, then the comment within it, then persist the reply. */
    method Execute(content: string, auth: Auth, param: CommentParam, idSuffix: string)
      returns (r: Result<AddedReply>)
      requires repository.Valid()
      requires ReplyId(idSuffix) !in repository.replies
      modifies repository
      ensures repository.Valid()
      ensures
        var db := old(repository.Contents());
        var reply := AddReply(content, auth.id, param.commentId);
        if !ThreadAvailable(db, param.threadId) then
          r == Err(NotFound(ThreadResource)) &&
          repository.log == old(repository.log) + [Call.VerifyAvailableThread(param.threadId)] &&
          repository.Contents() == db
        else if !CommentAvailable(db, param.threadId, param.commentId) then
          r == Err(NotFound(CommentResource)) &&
          repository.log == old(repository.log) +
            [Call.VerifyAvailableThread(param.threadId), Call.VerifyAvailableComment(param.threadId, param.commentId)] &&
          repository.Contents() == db
        else
          r == Ok(AddedReply(ReplyId(idSuffix), content, auth.id)) &&
          repository.log == old(repository.log) +
            [Call.VerifyAvailableThread(param.threadId), Call.VerifyAvailableComment(param.threadId, param.commentId),
             AddReplyCall(reply)] &&
          repository.Contents() == InsertReply(db, ReplyId(idSuffix), reply)
    {
      var checked := repository.VerifyAvailableThread(param.threadId);
      if checked.Fail? {
        return Err(checked.error);
      }
      checked := repository.VerifyAvailableComment(param.threadId, param.commentId);
      if checked.Fail? {
        return Err(checked.error);
      }
      var added := repository.AddReply(AddReply(content, auth.id, param.commentId), idSuffix);
      return Ok(added);
    }
  }

  class DeleteCommentUseCase {
    const repository: ForumRepository

    constructor (repository: ForumRepository)
      ensures this.repository == repository
    {
      this.repository := repository;
    }

    /** Verify the thread, then that the actor owns the comment, then soft-delete it. */
    method Execute(auth: Auth, param: CommentParam) returns (r: Outcome)
      requires repository.Valid()
      modifies repository
      ensures repository.Valid()
      ensures
        var db := old(repository.Contents());
        var owner := CommentOwnerCheck(db, param.commentId, auth.id);
        if !ThreadAvailable(db, param.threadId) then
          r == Fail(NotFound(ThreadResource)) &&
          repository.log == old(repository.log) + [Call.VerifyAvailableThread(param.threadId)] &&
          repository.Contents() == db
        else if owner.Fail? then
          r == owner &&
          repository.log == old(repository.log) +
            [Call.VerifyAvailableThread(param.threadId), Call.VerifyCommentOwner(param.commentId, auth.id)] &&
          repository.Contents() == db
        else
          r == Pass &&
          repository.log == old(repository.log) +
            [Call.VerifyAvailableThread(param.threadId), Call.VerifyCommentOwner(param.commentId, auth.id),
             Call.DeleteCommentById(param.commentId, param.threadId)] &&
          repository.Contents() == SoftDeleteComment(db, param.commentId, param.threadId)
    {
      r := repository.VerifyAvailableThread(param.threadId);
      if r.Fail? {
        return;
      }
      r := repository.VerifyCommentOwner(param.commentId, auth.id);
      if r.Fail? {
        return;
      }
      repository.DeleteCommentById(param.commentId, param.threadId);
    }
  }

  class DeleteReplyUseCase {
    const repository: ForumRepository

    constructor (repository: ForumRepository)
      ensures this.repository == repository
    {
      this.repository := repository;
    }

    /** Verify the comment within the thread, then the reply within the comment, then that
        the actor owns the reply, and only then soft-delete the reply. */
    method Execute(auth: Auth, param: ReplyParam) returns (r: Outcome)
      requires repository.Valid()
      modifies repository
      ensures repository.Valid()
      ensures
        var db := old(repository.Contents());
        var owner := ReplyOwnerCheck(db, param.replyId, auth.id);
        if !CommentAvailable(db, param.threadId, param.commentId) then
          r == Fail(NotFound(CommentResource)) &&
          repository.log == old(repository.log) + [Call.VerifyAvailableComment(param.threadId, param.commentId)] &&
          repository.Contents() == db
        else if !ReplyAvailable(db, param.threadId, param.commentId, param.replyId) then
          r == Fail(NotFound(ReplyResource)) &&
          repository.log == old(repository.log) +
            [Call.VerifyAvailableComment(param.threadId, param.commentId),
             Call.VerifyAvailableReply(param.threadId, param.commentId, param.replyId)] &&
          repository.Contents() == db
        else if owner.Fail? then
          r == owner && owner == Fail(Authorization(ReplyResource)) &&
          repository.log == old(repository.log) +
            [Call.VerifyAvailableComment(param.threadId, param.commentId),
             Call.VerifyAvailableReply(param.threadId, param.commentId, param.replyId),
             Call.VerifyReplyOwner(param.replyId, auth.id)] &&
          repository.Contents() == db
        else
          r == Pass &&
          repository.log == old(repository.log) +
            [Call.VerifyAvailableComment(param.threadId, param.commentId),
             Call.VerifyAvailableReply(param.threadId, param.commentId, param.replyId),
             Call.VerifyReplyOwner(param.replyId, auth.id),
             Call.DeleteReplyById(param.replyId)] &&
          repository.Contents() == SoftDeleteReply(db, param.replyId)
    {
      r := repository.VerifyAvailableComment(param.threadId, param.commentId);
      if r.Fail? {
        return;
      }
      r := repository.VerifyAvailableReply(param.threadId, param.commentId, param.replyId);
      if r.Fail? {
        return;
      }
      r := repository.VerifyReplyOwner(param.replyId, auth.id);
      if r.Fail? {
        return;
      }
      repository.DeleteReplyById(param.replyId);
    }
  }
}
