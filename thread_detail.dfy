/** The read use case: a thread with its comments and, under each comment, its replies,
    assembled from what the thread, comment and reply repositories return. Soft-deleted
    comments and replies keep their id, username and date; their content is replaced. */
module ThreadDetail {
  import opened Common

  datatype ThreadRecord = ThreadRecord(id: Id, title: string, body: string, date: string, username: string)
  datatype CommentRecord = CommentRecord(id: Id, thread: Id, username: string, date: string, content: string, isDeleted: bool)
  datatype ReplyRecord = ReplyRecord(id: Id, comment: Id, username: string, date: string, content: string, isDeleted: bool)

  datatype ReplyDetail = ReplyDetail(id: Id, username: string, date: string, content: string)
  datatype CommentDetail = CommentDetail(id: Id, username: string, date: string, content: string, replies: seq<ReplyDetail>)
  datatype Detail = Detail(id: Id, title: string, body: string, date: string, username: string, comments: seq<CommentDetail>)

  const DeletedCommentContent := "**komentar telah dihapus**"
  const DeletedReplyContent := "**balasan telah dihapus**"
  const NotContainThreadId := "GET_THREAD_DETAIL_USE_CASE.NOT_CONTAIN_THREAD_ID"

  /** The rows of a list that belong to one comment, in list order. */
  function RepliesOf(pool: seq<ReplyRecord>, commentId: Id): (rs: seq<ReplyRecord>)
    ensures forall i | 0 <= i < |rs| :: rs[i].comment == commentId && rs[i] in pool
    ensures forall r | r in pool && r.comment == commentId :: r in rs
    ensures |rs| <= |pool|
    ensures |pool| == 1 ==> rs == if pool[0].comment == commentId then pool else []
  {
    if pool == [] then []
    else if pool[0].comment == commentId then [pool[0]] + RepliesOf(pool[1..], commentId)
    else RepliesOf(pool[1..], commentId)
  }

  /** The rows of a list that belong to one thread, in list order. */
  function CommentsOf(pool: seq<CommentRecord>, threadId: Id): (cs: seq<CommentRecord>)
    ensures forall i | 0 <= i < |cs| :: cs[i].thread == threadId && cs[i] in pool
    ensures forall c | c in pool && c.thread == threadId :: c in cs
    ensures |cs| <= |pool|
    ensures |pool| == 1 ==> cs == if pool[0].thread == threadId then pool else []
  {
    if pool == [] then []
    else if pool[0].thread == threadId then [pool[0]] + CommentsOf(pool[1..], threadId)
    else CommentsOf(pool[1..], threadId)
  }

  /** Filtering a table split in two filters each part and keeps the parts in order;
      with the single-row case above this fixes the answer row by row, so the lookup
      keeps table order and shows each matching row as often as the table holds it. */
  lemma {:induction false} RepliesOfAppend(p: seq<ReplyRecord>, q: seq<ReplyRecord>, commentId: Id)
    ensures RepliesOf(p + q, commentId) == RepliesOf(p, commentId) + RepliesOf(q, commentId)
  {
    if p != [] {
      assert (p + q)[1..] == p[1..] + q;
      RepliesOfAppend(p[1..], q, commentId);
    } else {
      assert p + q == q;
    }
  }

  /** The comment lookup keeps table order in the same sense as `RepliesOfAppend`. */
  lemma {:induction false} CommentsOfAppend(p: seq<CommentRecord>, q: seq<CommentRecord>, threadId: Id)
    ensures CommentsOf(p + q, threadId) == CommentsOf(p, threadId) + CommentsOf(q, threadId)
  {
    if p != [] {
      assert (p + q)[1..] == p[1..] + q;
      CommentsOfAppend(p[1..], q, threadId);
    } else {
      assert p + q == q;
    }
  }

  function ReplyView(reply: ReplyRecord): ReplyDetail
  {
    ReplyDetail(reply.id, reply.username, reply.date, if reply.isDeleted then DeletedReplyContent else reply.content)
  }

  /** The reply views keep the order and the number of the fetched rows; each view keeps
      its row's id, username and date, and shows the placeholder exactly for deleted rows. */
  function ReplyViews(replies: seq<ReplyRecord>): (vs: seq<ReplyDetail>)
    ensures |vs| == |replies|
    ensures forall i | 0 <= i < |replies| ::
      vs[i].id == replies[i].id && vs[i].username == replies[i].username && vs[i].date == replies[i].date &&
      vs[i].content == (if replies[i].isDeleted then DeletedReplyContent else replies[i].content)
  {
    if replies == [] then [] else [ReplyView(replies[0])] + ReplyViews(replies[1..])
  }

  /** The views of two lists one after the other are the views of the joined list. */
  lemma ReplyViewsAppend(p: seq<ReplyRecord>, q: seq<ReplyRecord>)
    ensures ReplyViews(p + q) == ReplyViews(p) + ReplyViews(q)
  {
  }

  function CommentView(comment: CommentRecord, replies: seq<ReplyRecord>): CommentDetail
  {
    CommentDetail(comment.id, comment.username, comment.date,
                  if comment.isDeleted then DeletedCommentContent else comment.content,
                  ReplyViews(replies))
  }

  /** One comment view per comment, in the comments' order, the i-th carrying the views of
      the i-th fetched reply list; `is_deleted` is not part of any view. */
  function CommentViews(comments: seq<CommentRecord>, fetched: seq<seq<ReplyRecord>>): (vs: seq<CommentDetail>)
    requires |fetched| == |comments|
    ensures |vs| == |comments|
    ensures forall i | 0 <= i < |comments| :: vs[i] == CommentView(comments[i], fetched[i])
  {
    if comments == [] then []
    else [CommentView(comments[0], fetched[0])] + CommentViews(comments[1..], fetched[1..])
  }

  /** The nested detail: the thread's own fields, then its comments in repository order,
      each with the replies fetched for it. */
  function Assemble(thread: ThreadRecord, comments: seq<CommentRecord>, fetched: seq<seq<ReplyRecord>>): (d: Detail)
    requires |fetched| == |comments|
    ensures d.id == thread.id && d.title == thread.title && d.body == thread.body
    ensures d.date == thread.date && d.username == thread.username
    ensures |d.comments| == |comments|
    ensures forall i | 0 <= i < |comments| ::
      d.comments[i].id == comments[i].id && d.comments[i].username == comments[i].username &&
      d.comments[i].date == comments[i].date &&
      d.comments[i].content == (if comments[i].isDeleted then DeletedCommentContent else comments[i].content) &&
      d.comments[i].replies == ReplyViews(fetched[i])
  {
    Detail(thread.id, thread.title, thread.body, thread.date, thread.username, CommentViews(comments, fetched))
  }

  /** The reply lists a per-comment fetch over `pool` answers, one per comment. */
  function FetchedFor(pool: seq<ReplyRecord>, comments: seq<CommentRecord>): (fetched: seq<seq<ReplyRecord>>)
    ensures |fetched| == |comments|
    ensures forall i | 0 <= i < |comments| :: fetched[i] == RepliesOf(pool, comments[i].id)
  {
    if comments == [] then [] else [RepliesOf(pool, comments[0].id)] + FetchedFor(pool, comments[1..])
  }

  /** A reply shows up under a comment of the detail exactly when it belongs to that
      comment: every reply view under comment i comes from a row of comment i, every row
      of comment i is shown there, and for any split of the table the rows of the first
      part are shown before those of the second, so table order is kept. */
  lemma RepliesStayWithTheirComment(
    thread: ThreadRecord, comments: seq<CommentRecord>, pool: seq<ReplyRecord>, i: nat, j: nat, split: nat)
    requires i < |comments| && split <= |pool|
    ensures
      var d := Assemble(thread, comments, FetchedFor(pool, comments));
      var rs := RepliesOf(pool, comments[i].id);
      |d.comments[i].replies| == |rs| &&
      (j < |rs| ==> rs[j].comment == comments[i].id && rs[j] in pool && d.comments[i].replies[j] == ReplyView(rs[j]))
    ensures
      var d := Assemble(thread, comments, FetchedFor(pool, comments));
      d.comments[i].replies ==
        ReplyViews(RepliesOf(pool[..split], comments[i].id)) + ReplyViews(RepliesOf(pool[split..], comments[i].id))
  {
    assert pool == pool[..split] + pool[split..];
    RepliesOfAppend(pool[..split], pool[split..], comments[i].id);
    ReplyViewsAppend(RepliesOf(pool[..split], comments[i].id), RepliesOf(pool[split..], comments[i].id));
  }

  /** The orchestration fixture: a live comment without replies and a deleted comment
      holding one live and one deleted reply assemble into the expected nested detail. */
  lemma SampleDetail()
    ensures
      var thread := ThreadRecord("thread-h_2FkLZhtgBKY2kh4CC02", "sebuah thread", "sebuah body thread",
                                 "2021-08-08T07:19:09.775Z", "dicoding");
      var c0 := CommentRecord("comment-_pby2_tmXV6bcvcdev8xk", "thread-123", "johndoe",
                              "2021-08-08T07:22:33.555Z", "sebuah comment", false);
      var c1 := CommentRecord("comment-yksuCoxM2s4MMrZJO-qVD", "thread-123", "dicoding",
                              "2021-08-08T07:26:21.338Z", DeletedCommentContent, true);
      var r0 := ReplyRecord("reply-xNBtm9HPR-492AeiimpfN", c1.id, "dicoding",
                            "2021-08-08T07:59:48.766Z", "sebuah balasan", false);
      var r1 := ReplyRecord("reply-BErOXUSefjwWGW1Z10Ihk", c1.id, "johndoe",
                            "2021-08-08T08:07:01.522Z", DeletedReplyContent, true);
      Assemble(thread, [c0, c1], FetchedFor([r0, r1], [c0, c1])) ==
        Detail(thread.id, thread.title, thread.body, thread.date, thread.username,
               [CommentDetail(c0.id, c0.username, c0.date, c0.content, []),
                CommentDetail(c1.id, c1.username, c1.date, c1.content,
                              [ReplyDetail(r0.id, r0.username, r0.date, r0.content),
                               ReplyDetail(r1.id, r1.username, r1.date, r1.content)])])
  {
    var thread := ThreadRecord("thread-h_2FkLZhtgBKY2kh4CC02", "sebuah thread", "sebuah body thread",
                               "2021-08-08T07:19:09.775Z", "dicoding");
    var c0 := CommentRecord("comment-_pby2_tmXV6bcvcdev8xk", "thread-123", "johndoe",
                            "2021-08-08T07:22:33.555Z", "sebuah comment", false);
    var c1 := CommentRecord("comment-yksuCoxM2s4MMrZJO-qVD", "thread-123", "dicoding",
                            "2021-08-08T07:26:21.338Z", DeletedCommentContent, true);
    var r0 := ReplyRecord("reply-xNBtm9HPR-492AeiimpfN", c1.id, "dicoding",
                          "2021-08-08T07:59:48.766Z", "sebuah balasan", false);
    var r1 := ReplyRecord("reply-BErOXUSefjwWGW1Z10Ihk", c1.id, "johndoe",
                          "2021-08-08T08:07:01.522Z", DeletedReplyContent, true);
    assert c0.id[8] != c1.id[8];
    assert RepliesOf([r0, r1], c0.id) == [];
    assert RepliesOf([r0, r1][1..], c1.id) == [r1];
    assert RepliesOf([r0, r1], c1.id) == [r0, r1];
    var fetched := FetchedFor([r0, r1], [c0, c1]);
    assert fetched == [[], [r0, r1]];
    assert ReplyViews([r0, r1]) == [ReplyView(r0), ReplyView(r1)];
    var d := Assemble(thread, [c0, c1], fetched);
    assert d.comments == [CommentView(c0, []), CommentView(c1, [r0, r1])];
  }

  /** The call the thread-detail use case makes on a repository. */
  datatype ReadCall =
    | GetThreadById(threadId: Id)
    | GetCommentsByThreadId(threadId: Id)
    | GetRepliesByCommentId(commentId: Id)

  /** One reply fetch per comment, keyed by the comment's id, in comment order. */
  function ReplyFetches(comments: seq<CommentRecord>): (calls: seq<ReadCall>)
    ensures |calls| == |comments|
    ensures forall i | 0 <= i < |comments| :: calls[i] == GetRepliesByCommentId(comments[i].id)
  {
    if comments == [] then [] else [GetRepliesByCommentId(comments[0].id)] + ReplyFetches(comments[1..])
  }

  /** One more comment adds one fetched list and one fetch call, both for that comment. */
  lemma FetchStep(pool: seq<ReplyRecord>, comments: seq<CommentRecord>, i: nat)
    requires i < |comments|
    ensures FetchedFor(pool, comments[..i + 1]) == FetchedFor(pool, comments[..i]) + [RepliesOf(pool, comments[i].id)]
    ensures ReplyFetches(comments[..i + 1]) == ReplyFetches(comments[..i]) + [GetRepliesByCommentId(comments[i].id)]
  {
    var longer, shorter := comments[..i + 1], comments[..i];
    var lf, sf := FetchedFor(pool, longer), FetchedFor(pool, shorter) + [RepliesOf(pool, comments[i].id)];
    forall k | 0 <= k < i + 1 ensures lf[k] == sf[k] {
      if k < i {
        assert longer[k] == shorter[k];
      }
    }
    var lc, sc := ReplyFetches(longer), ReplyFetches(shorter) + [GetRepliesByCommentId(comments[i].id)];
    forall k | 0 <= k < i + 1 ensures lc[k] == sc[k] {
      if k < i {
        assert longer[k] == shorter[k];
      }
    }
  }

  /** The thread, comment and reply repositories as the read use case sees them: thread
      rows by id, and comment and reply rows in the order the repository keeps them. */
  class DetailRepository {
    var threads: map<Id, ThreadRecord>
    var comments: seq<CommentRecord>
    var replies: seq<ReplyRecord>
    ghost var log: seq<ReadCall>

    constructor (threads: map<Id, ThreadRecord>, comments: seq<CommentRecord>, replies: seq<ReplyRecord>)
      ensures this.threads == threads && this.comments == comments && this.replies == replies && log == []
    {
      this.threads := threads;
      this.comments := comments;
      this.replies := replies;
      log := [];
    }

    method GetThreadById(threadId: Id) returns (r: Result<ThreadRecord>)
      modifies this`log
      ensures r == if threadId in threads then Ok(threads[threadId]) else Err(NotFound(ThreadResource))
      ensures log == old(log) + [ReadCall.GetThreadById(threadId)]
    {
      log := log + [ReadCall.GetThreadById(threadId)];
      if threadId in threads {
        r := Ok(threads[threadId]);
      } else {
        r := Err(NotFound(ThreadResource));
      }
    }

    method GetCommentsByThreadId(threadId: Id) returns (cs: seq<CommentRecord>)
      modifies this`log
      ensures cs == CommentsOf(comments, threadId)
      ensures log == old(log) + [ReadCall.GetCommentsByThreadId(threadId)]
    {
      log := log + [ReadCall.GetCommentsByThreadId(threadId)];
      cs := CommentsOf(comments, threadId);
    }

    method GetRepliesByCommentId(commentId: Id) returns (rs: seq<ReplyRecord>)
      modifies this`log
      ensures rs == RepliesOf(replies, commentId)
      ensures log == old(log) + [ReadCall.GetRepliesByCommentId(commentId)]
    {
      log := log + [ReadCall.GetRepliesByCommentId(commentId)];
      rs := RepliesOf(replies, commentId);
    }
  }

  class GetThreadDetailUseCase {
    const repository: DetailRepository

    constructor (repository: DetailRepository)
      ensures this.repository == repository
    {
      this.repository := repository;
    }

    /** Fetches the replies of every comment, one call per comment, in comment order. */
    method FetchReplies(comments: seq<CommentRecord>) returns (fetched: seq<seq<ReplyRecord>>)
      modifies repository`log
      ensures fetched == FetchedFor(repository.replies, comments)
      ensures repository.log == old(repository.log) + ReplyFetches(comments)
    {
      fetched := [];
      var i := 0;
      while i < |comments|
        invariant 0 <= i <= |comments|
        invariant fetched == FetchedFor(repository.replies, comments[..i])
        invariant repository.log == old(repository.log) + ReplyFetches(comments[..i])
      {
        var replies := repository.GetRepliesByCommentId(comments[i].id);
        FetchStep(repository.replies, comments, i);
        fetched := fetched + [replies];
        i := i + 1;
      }
      assert comments[..i] == comments;
    }

    /** A parameter without a thread id is refused before any repository call; otherwise
        the thread, then its comments, then each comment's replies are fetched and assembled. */
    method Execute(threadId: Option<Id>) returns (r: Result<Detail>)
      modifies repository`log
      ensures threadId.None? ==> r == Err(Validation(NotContainThreadId)) && repository.log == old(repository.log)
      ensures threadId.Some? && threadId.value !in repository.threads ==>
        r == Err(NotFound(ThreadResource)) &&
        repository.log == old(repository.log) + [ReadCall.GetThreadById(threadId.value)]
      ensures threadId.Some? && threadId.value in repository.threads ==>
        var t := threadId.value;
        var comments := CommentsOf(repository.comments, t);
        r == Ok(Assemble(repository.threads[t], comments, FetchedFor(repository.replies, comments))) &&
        repository.log == old(repository.log) +
          [ReadCall.GetThreadById(t), ReadCall.GetCommentsByThreadId(t)] + ReplyFetches(comments)
    {
      if threadId.None? {
        return Err(Validation(NotContainThreadId));
      }
      var t := threadId.value;
      var thread := repository.GetThreadById(t);
      if thread.Err? {
        return Err(thread.error);
      }
      var comments := repository.GetCommentsByThreadId(t);
      ghost var head := repository.log;
      assert head == old(repository.log) + [ReadCall.GetThreadById(t), ReadCall.GetCommentsByThreadId(t)];
      var fetched := FetchReplies(comments);
      assert repository.log == head + ReplyFetches(comments);
      r := Ok(Assemble(thread.value, comments, fetched));
    }
  }
}
