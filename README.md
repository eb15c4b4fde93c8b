# Forum API use-case layer in Dafny

A model of the orchestration core of a discussion-forum backend (threads, comments,
replies, likes). The backend's write use cases run a fixed chain of repository checks
before they change anything. The read use case turns flat comment and reply rows into a
nested thread view, and the like table toggles one record per (owner, comment) pair.

Modules and files:

- `common.dfy` (`Common`): identifiers, the error taxonomy (`NotFound`, `Authorization`,
  `Validation`), `Result`, `Outcome` and the authenticated actor.
- `comment_entity.dfy` (`CommentEntity`): the `AddComment` entity's validating
  constructor. Payload fields are JavaScript-like values, so the constructor can apply
  JavaScript truthiness to them.
- `repository.dfy` (`Repository`): the write-side tables as a value (`Tables`), the
  existence and ownership checks, and the inserts and soft deletes as functions. The
  `ForumRepository` class holds the tables plus a ghost log of every repository call,
  in the order the calls were issued.
- `use_cases.dfy` (`UseCases`): `AddCommentUseCase`, `AddReplyUseCase`,
  `DeleteCommentUseCase` and `DeleteReplyUseCase`. Each `Execute` states, case by case,
  three things: the result, the exact calls appended to the log, and the new tables.
  The first check that rejects ends the chain, and its error is returned unchanged.
  Every `Execute` keeps referential integrity (`Valid`).
- `thread_detail.dfy` (`ThreadDetail`): thread-detail assembly as pure functions over
  sequences. It also holds the read repository and `GetThreadDetailUseCase`, whose loop
  issues one reply fetch per comment.
- `likes.dfy` (`Likes`): the like table as a map from (owner, comment) to (id, liked),
  with toggle, count and the count lemmas.

Modelling decisions:

- The tests fix the calls the use cases make, but not what the repository checks do.
  This model gives them the following meaning:
  - a thread is available when it is in the thread set;
  - a comment is available in a thread when it exists, belongs to that thread and is
    not soft-deleted;
  - a reply is available under a comment when it exists, belongs to that comment, is
    not soft-deleted, and that comment belongs to the thread;
  - the owner checks fail with `NotFound` when the row is missing and with
    `Authorization` when the owner differs.
- `deleteCommentById(commentId, threadId)` soft-deletes the comment only when it
  belongs to that thread. Otherwise it changes nothing. The owner check does not look
  at the thread, so the delete-comment use case returns success and changes nothing
  when the thread is available and the actor owns the comment, but the comment sits
  in another thread.
- Generated ids are inputs (`idSuffix`, `generated`). The id generator is trusted to
  produce unused ids, which is the only `requires` on the insert paths.
- The delete-reply use case follows `src/Applications/use_case/DeleteReplyUseCase.js`:
  comment check, reply check, owner check, delete. It makes no thread check: the
  source issues none, and the comment check already names the thread.
- The tests do not show whether the add-comment use case checks the thread before it
  builds the entity. The model checks the thread first, the same order as the
  add-reply chain, whose tests do pin it.
- The thread, comment and reply repositories share one database. They are modelled as
  one object so that the order of calls across them is one log.
- The read use case runs over its own `DetailRepository`: thread rows by id, plus
  comment and reply rows in repository order. `getRepliesByCommentId` answers with the
  rows of that comment, in order, as the stub in the orchestration test does.
- `countCommentLikes` counts the records of the comment whose `liked` flag is set. A count
  that included unliked records would never drop after an unlike, so toggling off
  would be invisible. The counted records in the repository test are created
  without an explicit flag, so the model reads them as liked (`CountAllLiked`).

## Model

| member | source | states |
|---|---|---|
| `CommentEntity.VerifyPayload` | src/Domains/comments/entities/AddComment.js:12-20 | a falsy (missing, empty, null, false, 0) content, owner or thread gives NOT_CONTAIN_NEEDED_PROPERTY, and this check comes first; all present but one not a string gives NOT_MEET_DATA_TYPE_SPECIFICATION; it passes exactly when all three are non-empty strings |
| `CommentEntity.Construct` | src/Domains/comments/entities/AddComment.js:2-10 | the entity exists only if verification passed; the error is verification's own; on success content, owner and thread are the payload's strings |
| `CommentEntity.ConstructAsPayload` | src/Domains/comments/entities/AddComment.js:5-15 | building from an entity's own fields gives that entity back when all fields are non-empty; an empty field is refused as missing, not as mistyped |
| `CommentEntity.ConstructIgnoresOtherFields` | src/Domains/comments/entities/AddComment.js:5-9 | payloads that agree on content, owner and thread build the same entity, whatever other keys they carry |
| `UseCases.CommentPayload` | src/Applications/use_case/_test/AddCommentUseCase.test.js:41-45 | the entity payload takes owner from the actor, thread from the route parameter, and only content from the request payload |
| `UseCases.AddCommentUseCase.Execute` | src/Applications/use_case/_test/AddCommentUseCase.test.js:40-46 | verifyAvailableThread(threadId) is called first; on failure its NotFound is returned and nothing is added; an invalid entity is refused after the thread check; otherwise addComment gets AddComment(content, auth id, threadId) and the repository's AddedComment is returned unchanged; only that row is inserted |
| `UseCases.AddReplyUseCase.Execute` | src/Applications/use_case/_test/AddReplyUseCase.test.js:46-141 | verifyAvailableThread(threadId) then verifyAvailableComment(threadId, commentId); a failing thread check stops before the comment check and addReply; a failing comment check stops before addReply; otherwise addReply gets AddReply(content, auth id, commentId) and its AddedReply is returned unchanged |
| `UseCases.DeleteCommentUseCase.Execute` | src/Applications/use_case/_test/DeleteCommentUseCase.test.js:32-97 | verifyAvailableThread(threadId), then verifyCommentOwner(commentId, auth id), then deleteCommentById(commentId, threadId); each failing check's own error is returned and no later call is made; tables change only on success |
| `UseCases.DeleteReplyUseCase.Execute` | src/Applications/use_case/DeleteReplyUseCase.js:7-15 | verifyAvailableComment(threadId, commentId) is the first call; verifyAvailableReply runs only after it passes; verifyReplyOwner(replyId, auth id) follows; deleteReplyById(replyId) is issued only when all three pass; a failure is returned unchanged with no delete; success resolves with no value |
| `Repository.InsertComment` | src/Applications/use_case/_test/AddCommentUseCase.test.js:41-46 | an insert adds exactly one live row with the entity's thread, owner and content, changes no other row, and keeps referential integrity when the thread exists |
| `Repository.InsertReply` | src/Applications/use_case/_test/AddReplyUseCase.test.js:52-57 | an insert adds exactly one live reply row under the named comment, changes no other row, and keeps referential integrity when the comment exists |
| `Repository.SoftDeleteComment` | src/Applications/use_case/_test/DeleteCommentUseCase.test.js:40-44 | only the named comment of the named thread gets its deleted flag set; no row disappears and threads and replies are untouched |
| `Repository.SoftDeleteReply` | src/Applications/use_case/DeleteReplyUseCase.js:14 | only the named reply gets its deleted flag set; no row disappears and threads and comments are untouched |
| `Repository.ForumRepository.VerifyAvailableThread` | src/Applications/use_case/_test/AddReplyUseCase.test.js:76-79 | logs verifyAvailableThread(threadId) and rejects with NotFound for an unknown thread |
| `Repository.ForumRepository.VerifyAvailableComment` | src/Applications/use_case/_test/AddReplyUseCase.test.js:120-123 | logs verifyAvailableComment(threadId, commentId) and rejects with NotFound unless the comment is live in that thread |
| `Repository.ForumRepository.VerifyCommentOwner` | src/Applications/use_case/_test/DeleteCommentUseCase.test.js:87-88 | logs verifyCommentOwner(commentId, ownerId); a missing comment is NotFound, somebody else's is Authorization |
| `Repository.ForumRepository.VerifyAvailableReply` | src/Applications/use_case/DeleteReplyUseCase.js:12 | logs verifyAvailableReply(threadId, commentId, replyId) and rejects with NotFound unless the reply is live under that comment of that thread |
| `Repository.ForumRepository.VerifyReplyOwner` | src/Applications/use_case/DeleteReplyUseCase.js:13 | logs verifyReplyOwner(replyId, ownerId); a missing reply is NotFound, somebody else's is Authorization |
| `Repository.ForumRepository.AddComment` | src/Applications/use_case/_test/AddCommentUseCase.test.js:30-31 | logs addComment(entity), stores it under the generated id and answers with AddedComment(id, content, owner) |
| `Repository.ForumRepository.AddReply` | src/Applications/use_case/_test/AddReplyUseCase.test.js:37-38 | logs addReply(entity), stores it under the generated id and answers with AddedReply(id, content, owner) |
| `Repository.ForumRepository.DeleteCommentById` | src/Applications/use_case/_test/DeleteCommentUseCase.test.js:24-25 | logs deleteCommentById(commentId, threadId) and soft-deletes that comment of that thread |
| `Repository.ForumRepository.DeleteReplyById` | src/Applications/use_case/DeleteReplyUseCase.js:14 | logs deleteReplyById(replyId) and soft-deletes that reply |
| `ThreadDetail.RepliesOf` | src/Applications/use_case/_test/GetThreadDetailUseCase.test.js:116-117 | the reply lookup answers only rows of the asked comment, and all of them, drawn from the table; a one-row table gives that row exactly when it matches |
| `ThreadDetail.CommentsOf` | src/Applications/use_case/_test/GetThreadDetailUseCase.test.js:113-114 | the comment lookup answers only rows of the asked thread, and all of them, drawn from the table; a one-row table gives that row exactly when it matches |
| `ThreadDetail.RepliesOfAppend` | src/Applications/use_case/_test/GetThreadDetailUseCase.test.js:117 | the reply lookup over a table split in two is the lookup over the first part followed by the lookup over the second; with the one-row case this keeps table order and multiplicity, as the array filter does |
| `ThreadDetail.CommentsOfAppend` | src/Applications/use_case/_test/GetThreadDetailUseCase.test.js:113-114 | the comment lookup over a split table is the lookup over each part, in order, so repository order is kept |
| `ThreadDetail.ReplyViewsAppend` | src/Applications/use_case/_test/GetThreadDetailUseCase.test.js:88-101 | the views of two reply lists joined are the views of each list, in order |
| `ThreadDetail.ReplyViews` | src/Applications/use_case/_test/GetThreadDetailUseCase.test.js:286-291 | one view per fetched reply, in order; id, username and date pass through; a deleted reply shows "**balasan telah dihapus**", a live one its content |
| `ThreadDetail.CommentViews` | src/Applications/use_case/_test/GetThreadDetailUseCase.test.js:75-103 | one comment view per comment, in repository order, each built from its own fetched reply list |
| `ThreadDetail.Assemble` | src/Applications/use_case/_test/GetThreadDetailUseCase.test.js:69-104 | the detail's id, title, body, date and username are the thread's; comments keep repository order and expose only id, username, date, content and replies; a deleted comment shows "**komentar telah dihapus**"; comment i's replies are the views of the i-th fetched list |
| `ThreadDetail.FetchedFor` | src/Applications/use_case/_test/GetThreadDetailUseCase.test.js:135-139 | one fetched list per comment, the i-th being the lookup for comment i's id |
| `ThreadDetail.RepliesStayWithTheirComment` | src/Applications/use_case/_test/GetThreadDetailUseCase.test.js:117 | every reply shown under a comment is a row of that comment and every such row is shown; for any split of the table, the first part's rows come before the second part's, so table order is kept |
| `ThreadDetail.SampleDetail` | src/Applications/use_case/_test/GetThreadDetailUseCase.test.js:24-127 | the fixture's live comment gets no replies; its deleted comment gets one live and one deleted reply, in order, and all fields are as the expected detail lists them |
| `ThreadDetail.ReplyFetches` | src/Applications/use_case/_test/GetThreadDetailUseCase.test.js:135-139 | the reply-fetch calls number exactly the comments, and the i-th is keyed by comment i's id |
| `ThreadDetail.DetailRepository.GetThreadById` | src/Applications/use_case/_test/GetThreadDetailUseCase.test.js:129-130 | logs getThreadById(threadId) and answers the thread row, or NotFound |
| `ThreadDetail.DetailRepository.GetCommentsByThreadId` | src/Applications/use_case/_test/GetThreadDetailUseCase.test.js:132-133 | logs getCommentsByThreadId(threadId) and answers that thread's comments in order |
| `ThreadDetail.DetailRepository.GetRepliesByCommentId` | src/Applications/use_case/_test/GetThreadDetailUseCase.test.js:116-117 | logs getRepliesByCommentId(commentId) and answers that comment's replies in order |
| `ThreadDetail.GetThreadDetailUseCase.FetchReplies` | src/Applications/use_case/_test/GetThreadDetailUseCase.test.js:135-139 | the loop issues getRepliesByCommentId once per comment, with that comment's id and in comment order, and keeps each answer in place |
| `ThreadDetail.GetThreadDetailUseCase.Execute` | src/Applications/use_case/_test/GetThreadDetailUseCase.test.js:11-139 | a missing threadId gives GET_THREAD_DETAIL_USE_CASE.NOT_CONTAIN_THREAD_ID with no repository call; otherwise getThreadById and getCommentsByThreadId get the threadId and one reply fetch per comment follows; the result is the assembled detail |
| `Likes.Toggled` | src/Infrastructures/repository/_test/LikeRepositoryPostgres.test.js:38-73 | a pair with no record gets exactly one new record "like-" + generated id, liked; an existing record keeps its id and flips its flag in place; no other record changes |
| `Likes.ThreeToggles` | src/Infrastructures/repository/_test/LikeRepositoryPostgres.test.js:41-73 | from no record, successive toggles give liked, unliked, liked under one record id |
| `Likes.ToggleTwiceRestores` | src/Infrastructures/repository/_test/LikeRepositoryPostgres.test.js:58-73 | two toggles of an existing record give back the table |
| `Likes.LikedKeysAfterWrite` | src/Infrastructures/repository/_test/LikeRepositoryPostgres.test.js:70-73 | writing one record changes a comment's liked set by that record alone |
| `Likes.ToggleMovesCountByOne` | src/Infrastructures/repository/_test/LikeRepositoryPostgres.test.js:41-45 | a toggle raises its comment's count by one when the pair ends up liked, and lowers it by one otherwise |
| `Likes.ToggleKeepsOtherCounts` | src/Infrastructures/repository/_test/LikeRepositoryPostgres.test.js:111-125 | a toggle on one comment leaves every other comment's count as it was |
| `Likes.CountWithoutRecords` | src/Infrastructures/repository/_test/LikeRepositoryPostgres.test.js:122-126 | a comment with no like records counts 0 |
| `Likes.CountAllLiked` | src/Infrastructures/repository/_test/LikeRepositoryPostgres.test.js:100-124 | when a comment's records are all liked, its count is the number of its records across owners |
| `Likes.LikeRepository.ToggleCommentLike` | src/Infrastructures/repository/_test/LikeRepositoryPostgres.test.js:41-45 | the table after the call is the toggled table |
| `Likes.LikeRepository.CountCommentLikes` | src/Infrastructures/repository/_test/LikeRepositoryPostgres.test.js:120-126 | the fold over the table returns the comment's count of liked records, 0 without records |

## Left out

- PostgreSQL, SQL text, connection pools and table helpers. The tables are in-memory
  maps and sequences.
- Promises and `async`/`await`. Each repository call is one synchronous step that
  resolves or rejects; the short-circuit comes from the order of the steps.
- Concurrent toggles of the same pair (the read-then-write race). Each toggle is one
  atomic step.
- Id generation. The generated suffix is a parameter, and the generator is trusted to
  give unused ids.
- Date strings. They are opaque and are never parsed or ordered.
- JavaScript numbers other than integers. NaN and fractional values are not among the
  payload values.
- The validation inside `AddReply`, `AddedComment`, `AddedReply` and `ThreadDetail`.
  These are plain records here. `src/Domains/replies/entities/AddReply.js` is not part
  of this model.
- Username lookups. The read side's rows carry usernames as the repository answers
  them; joining owners to users is persistence work.
- What the thread-detail use case does when `threadId` is present but empty. The tests
  only pin the missing key, modelled as `None`.
