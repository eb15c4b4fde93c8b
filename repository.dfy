/** The persistence state the write use cases consult and change: threads, comments and
    replies, with the existence and ownership checks the repositories offer and a ghost
    log of every repository call, in the order it was issued. */
module Repository {
  import opened Common
  import CE = CommentEntity

  datatype CommentRow = CommentRow(thread: Id, owner: Id, content: string, deleted: bool)
  datatype ReplyRow = ReplyRow(comment: Id, owner: Id, content: string, deleted: bool)

  /** The entity handed to the reply repository (a plain record in this model). */
  datatype AddReply = AddReply(content: string, owner: Id, comment: Id)

  /** What the repositories answer after an insert. */
  datatype AddedComment = AddedComment(id: Id, content: string, owner: Id)
  datatype AddedReply = AddedReply(id: Id, content: string, owner: Id)

  /** The tables, as a value. */
  datatype Tables = Tables(threads: set<Id>, comments: map<Id, CommentRow>, replies: map<Id, ReplyRow>)

  /** One repository call with its arguments, as the use-case tests observe them. */
  datatype Call =
    | VerifyAvailableThread(threadId: Id)
    | VerifyAvailableComment(threadId: Id, commentId: Id)
    | VerifyCommentOwner(commentId: Id, ownerId: Id)
    | AddCommentCall(entity: CE.AddComment)
    | DeleteCommentById(commentId: Id, threadId: Id)
    | VerifyAvailableReply(threadId: Id, commentId: Id, replyId: Id)
    | VerifyReplyOwner(replyId: Id, ownerId: Id)
    | AddReplyCall(reply: AddReply)
    | DeleteReplyById(replyId: Id)

  function CommentId(suffix: string): Id { "comment-" + suffix }
  function ReplyId(suffix: string): Id { "reply-" + suffix }

  /** Every comment hangs off a known thread and every reply off a known comment. */
  ghost predicate Referential(db: Tables)
  {
    (forall c | c in db.comments :: db.comments[c].thread in db.threads) &&
    (forall r | r in db.replies :: db.replies[r].comment in db.comments)
  }

  // ----- the checks -----

  predicate ThreadAvailable(db: Tables, threadId: Id)
  {
    threadId in db.threads
  }

  predicate CommentAvailable(db: Tables, threadId: Id, commentId: Id)
  {
    commentId in db.comments && db.comments[commentId].thread == threadId && !db.comments[commentId].deleted
  }

  predicate ReplyAvailable(db: Tables, threadId: Id, commentId: Id, replyId: Id)
  {
    replyId in db.replies && db.replies[replyId].comment == commentId && !db.replies[replyId].deleted &&
    commentId in db.comments && db.comments[commentId].thread == threadId
  }

  function ThreadCheck(db: Tables, threadId: Id): Outcome
  {
    if ThreadAvailable(db, threadId) then Pass else Fail(NotFound(ThreadResource))
  }

  function CommentCheck(db: Tables, threadId: Id, commentId: Id): Outcome
  {
    if CommentAvailable(db, threadId, commentId) then Pass else Fail(NotFound(CommentResource))
  }

  function ReplyCheck(db: Tables, threadId: Id, commentId: Id, replyId: Id): Outcome
  {
    if ReplyAvailable(db, threadId, commentId, replyId) then Pass else Fail(NotFound(ReplyResource))
  }

  /** A missing comment is NotFound; somebody else's comment is an Authorization error. */
  function CommentOwnerCheck(db: Tables, commentId: Id, ownerId: Id): Outcome
  {
    if commentId !in db.comments then Fail(NotFound(CommentResource))
    else if db.comments[commentId].owner != ownerId then Fail(Authorization(CommentResource))
    else Pass
  }

  function ReplyOwnerCheck(db: Tables, replyId: Id, ownerId: Id): Outcome
  {
    if replyId !in db.replies then Fail(NotFound(ReplyResource))
    else if db.replies[replyId].owner != ownerId then Fail(Authorization(ReplyResource))
    else Pass
  }

  // ----- the changes -----

  /** Inserting a comment adds exactly one row, not deleted, and touches nothing else;
      a comment on a known thread keeps the tables referentially sound. */
  function InsertComment(db: Tables, id: Id, entity: CE.AddComment): (db': Tables)
    requires id !in db.comments
    ensures db'.threads == db.threads && db'.replies == db.replies
    ensures db'.comments.Keys == db.comments.Keys + {id}
    ensures db'.comments[id] == CommentRow(entity.thread, entity.owner, entity.content, false)
    ensures forall c | c in db.comments :: db'.comments[c] == db.comments[c]
    ensures Referential(db) && entity.thread in db.threads ==> Referential(db')
  {
    db.(comments := db.comments[id := CommentRow(entity.thread, entity.owner, entity.content, false)])
  }

  /** Inserting a reply adds exactly one row, not deleted, and touches nothing else;
      a reply to a known comment keeps the tables referentially sound. */
  function InsertReply(db: Tables, id: Id, reply: AddReply): (db': Tables)
    requires id !in db.replies
    ensures db'.threads == db.threads && db'.comments == db.comments
    ensures db'.replies.Keys == db.replies.Keys + {id}
    ensures db'.replies[id] == ReplyRow(reply.comment, reply.owner, reply.content, false)
    ensures forall r | r in db.replies :: db'.replies[r] == db.replies[r]
    ensures Referential(db) && reply.comment in db.comments ==> Referential(db')
  {
    db.(replies := db.replies[id := ReplyRow(reply.comment, reply.owner, reply.content, false)])
  }

  /** Soft delete of a comment within a thread: the row stays, only its flag is set, and
      only when the comment belongs to that thread. */
  function SoftDeleteComment(db: Tables, commentId: Id, threadId: Id): (db': Tables)
    ensures db'.threads == db.threads && db'.replies == db.replies
    ensures db'.comments.Keys == db.comments.Keys
    ensures forall c | c in db.comments && c != commentId :: db'.comments[c] == db.comments[c]
    ensures commentId in db.comments && db.comments[commentId].thread == threadId ==>
      db'.comments[commentId] == db.comments[commentId].(deleted := true)
    ensures !(commentId in db.comments && db.comments[commentId].thread == threadId) ==> db' == db
    ensures Referential(db) ==> Referential(db')
  {
    if commentId in db.comments && db.comments[commentId].thread == threadId then
      db.(comments := db.comments[commentId := db.comments[commentId].(deleted := true)])
    else db
  }

  /** Soft delete of a reply: the row stays, only its flag is set. */
  function SoftDeleteReply(db: Tables, replyId: Id): (db': Tables)
    ensures db'.threads == db.threads && db'.comments == db.comments
    ensures db'.replies.Keys == db.replies.Keys
    ensures forall r | r in db.replies && r != replyId :: db'.replies[r] == db.replies[r]
    ensures replyId in db.replies ==> db'.replies[replyId] == db.replies[replyId].(deleted := true)
    ensures Referential(db) ==> Referential(db')
  {
    if replyId in db.replies then
      db.(replies := db.replies[replyId := db.replies[replyId].(deleted := true)])
    else db
  }

  /** The thread, comment and reply repositories over one database. Checks append their
      call to the log and leave the tables alone; inserts and deletes change one row. */
  class ForumRepository {
    var threads: set<Id>
    var comments: map<Id, CommentRow>
    var replies: map<Id, ReplyRow>
    ghost var log: seq<Call>

    function Contents(): Tables
      reads this
    {
      Tables(threads, comments, replies)
    }

    ghost predicate Valid()
      reads this
    {
      Referential(Contents())
    }

    constructor (threads: set<Id>)
      ensures Contents() == Tables(threads, map[], map[]) && log == []
      ensures Valid()
    {
      this.threads := threads;
      comments := map[];
      replies := map[];
      log := [];
    }

    method VerifyAvailableThread(threadId: Id) returns (o: Outcome)
      modifies this`log
      ensures o == ThreadCheck(Contents(), threadId)
      ensures log == old(log) + [Call.VerifyAvailableThread(threadId)]
    {
      log := log + [Call.VerifyAvailableThread(threadId)];
      o := ThreadCheck(Contents(), threadId);
    }

    method VerifyAvailableComment(threadId: Id, commentId: Id) returns (o: Outcome)
      modifies this`log
      ensures o == CommentCheck(Contents(), threadId, commentId)
      ensures log == old(log) + [Call.VerifyAvailableComment(threadId, commentId)]
    {
      log := log + [Call.VerifyAvailableComment(threadId, commentId)];
      o := CommentCheck(Contents(), threadId, commentId);
    }

    method VerifyCommentOwner(commentId: Id, ownerId: Id) returns (o: Outcome)
      modifies this`log
      ensures o == CommentOwnerCheck(Contents(), commentId, ownerId)
      ensures log == old(log) + [Call.VerifyCommentOwner(commentId, ownerId)]
    {
      log := log + [Call.VerifyCommentOwner(commentId, ownerId)];
      o := CommentOwnerCheck(Contents(), commentId, ownerId);
    }

    method VerifyAvailableReply(threadId: Id, commentId: Id, replyId: Id) returns (o: Outcome)
      modifies this`log
      ensures o == ReplyCheck(Contents(), threadId, commentId, replyId)
      ensures log == old(log) + [Call.VerifyAvailableReply(threadId, commentId, replyId)]
    {
      log := log + [Call.VerifyAvailableReply(threadId, commentId, replyId)];
      o := ReplyCheck(Contents(), threadId, commentId, replyId);
    }

    method VerifyReplyOwner(replyId: Id, ownerId: Id) returns (o: Outcome)
      modifies this`log
      ensures o == ReplyOwnerCheck(Contents(), replyId, ownerId)
      ensures log == old(log) + [Call.VerifyReplyOwner(replyId, ownerId)]
    {
      log := log + [Call.VerifyReplyOwner(replyId, ownerId)];
      o := ReplyOwnerCheck(Contents(), replyId, ownerId);
    }

    /** Persists the entity under a freshly generated id and answers with the stored comment. */
    method AddComment(entity: CE.AddComment, idSuffix: string) returns (added: AddedComment)
      requires CommentId(idSuffix) !in comments
      modifies this`comments, this`log
      ensures Contents() == InsertComment(old(Contents()), CommentId(idSuffix), entity)
      ensures added == AddedComment(CommentId(idSuffix), entity.content, entity.owner)
      ensures log == old(log) + [AddCommentCall(entity)]
    {
      log := log + [AddCommentCall(entity)];
      comments := comments[CommentId(idSuffix) := CommentRow(entity.thread, entity.owner, entity.content, false)];
      added := AddedComment(CommentId(idSuffix), entity.content, entity.owner);
    }

    method AddReply(reply: AddReply, idSuffix: string) returns (added: AddedReply)
      requires ReplyId(idSuffix) !in replies
      modifies this`replies, this`log
      ensures Contents() == InsertReply(old(Contents()), ReplyId(idSuffix), reply)
      ensures added == AddedReply(ReplyId(idSuffix), reply.content, reply.owner)
      ensures log == old(log) + [AddReplyCall(reply)]
    {
      log := log + [AddReplyCall(reply)];
      replies := replies[ReplyId(idSuffix) := ReplyRow(reply.comment, reply.owner, reply.content, false)];
      added := AddedReply(ReplyId(idSuffix), reply.content, reply.owner);
    }

    method DeleteCommentById(commentId: Id, threadId: Id)
      modifies this`comments, this`log
      ensures Contents() == SoftDeleteComment(old(Contents()), commentId, threadId)
      ensures log == old(log) + [Call.DeleteCommentById(commentId, threadId)]
    {
      log := log + [Call.DeleteCommentById(commentId, threadId)];
      if commentId in comments && comments[commentId].thread == threadId {
        comments := comments[commentId := comments[commentId].(deleted := true)];
      }
    }

    method DeleteReplyById(replyId: Id)
      modifies this`replies, this`log
      ensures Contents() == SoftDeleteReply(old(Contents()), replyId)
      ensures log == old(log) + [Call.DeleteReplyById(replyId)]
    {
      log := log + [Call.DeleteReplyById(replyId)];
      if replyId in replies {
        replies := replies[replyId := replies[replyId].(deleted := true)];
      }
    }
  }
}
