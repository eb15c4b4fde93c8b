/** The like table: at most one record per (owner, comment) pair, created on the first
    toggle and flipped in place on every later one; a comment's count is the number of
    its records that are liked. */
module Likes {
  import opened Common

  /** The key of a like record: (owner, comment). */
  type LikeKey = (Id, Id)

  datatype LikeRecord = LikeRecord(id: Id, liked: bool)

  type LikeTable = map<LikeKey, LikeRecord>

  function LikeId(generated: string): Id { "like-" + generated }

  /** `toggleCommentLike`: a missing pair gets a new liked record under the generated id;
      an existing record keeps its id and has its flag inverted; no other record changes. */
  function Toggled(likes: LikeTable, owner: Id, comment: Id, generated: string): (likes': LikeTable)
    ensures likes'.Keys == likes.Keys + {(owner, comment)}
    ensures (owner, comment) !in likes ==> likes'[(owner, comment)] == LikeRecord(LikeId(generated), true)
    ensures (owner, comment) in likes ==>
      likes'[(owner, comment)] == LikeRecord(likes[(owner, comment)].id, !likes[(owner, comment)].liked)
    ensures forall k | k in likes && k != (owner, comment) :: likes'[k] == likes[k]
  {
    var key := (owner, comment);
    if key in likes then likes[key := likes[key].(liked := !likes[key].liked)]
    else likes[key := LikeRecord(LikeId(generated), true)]
  }

  /** The liked records of one comment. */
  function LikedKeys(likes: LikeTable, comment: Id): set<LikeKey>
  {
    set k | k in likes && k.1 == comment && likes[k].liked
  }

  /** `countCommentLikes`, as a specification: how many owners like the comment. */
  function LikeCount(likes: LikeTable, comment: Id): nat
  {
    |LikedKeys(likes, comment)|
  }

  /** The records of a table whose keys lie in `keys`. */
  function Restrict(likes: LikeTable, keys: set<LikeKey>): LikeTable
  {
    map k | k in likes && k in keys :: likes[k]
  }

  /** A table with no records on a comment counts 0 for it. */
  lemma CountWithoutRecords(likes: LikeTable, comment: Id)
    requires forall k | k in likes :: k.1 != comment
    ensures LikeCount(likes, comment) == 0
  {
  }

  /** A table whose records on a comment are all liked counts exactly those records. */
  lemma CountAllLiked(likes: LikeTable, comment: Id)
    requires forall k | k in likes && k.1 == comment :: likes[k].liked
    ensures LikeCount(likes, comment) == |set k | k in likes && k.1 == comment|
  {
    assert LikedKeys(likes, comment) == set k | k in likes && k.1 == comment;
  }

  /** Toggling a pair on one comment leaves every other comment's count as it was. */
  lemma ToggleKeepsOtherCounts(likes: LikeTable, owner: Id, comment: Id, generated: string, other: Id)
    requires other != comment
    ensures LikeCount(Toggled(likes, owner, comment, generated), other) == LikeCount(likes, other)
  {
    assert LikedKeys(Toggled(likes, owner, comment, generated), other) == LikedKeys(likes, other);
  }

  /** Writing one record changes a comment's liked set by that record alone. */
  lemma LikedKeysAfterWrite(likes: LikeTable, key: LikeKey, record: LikeRecord, comment: Id)
    ensures LikedKeys(likes[key := record], comment) ==
      if key.1 == comment && record.liked then LikedKeys(likes, comment) + {key}
      else LikedKeys(likes, comment) - {key}
  {
  }

  /** Toggling a pair moves its comment's count by one: up when the pair ends up liked,
      down when it ends up unliked. */
  lemma ToggleMovesCountByOne(likes: LikeTable, owner: Id, comment: Id, generated: string)
    ensures
      var likes' := Toggled(likes, owner, comment, generated);
      if likes'[(owner, comment)].liked then LikeCount(likes', comment) == LikeCount(likes, comment) + 1
      else LikeCount(likes', comment) + 1 == LikeCount(likes, comment)
  {
    var key := (owner, comment);
    var record := if key in likes then likes[key].(liked := !likes[key].liked) else LikeRecord(LikeId(generated), true);
    assert Toggled(likes, owner, comment, generated) == likes[key := record];
    LikedKeysAfterWrite(likes, key, record, comment);
    if record.liked {
      assert key !in LikedKeys(likes, comment);
    } else {
      assert key in LikedKeys(likes, comment);
    }
  }

  /** From no record, three toggles give liked, unliked, liked, all under one record id. */
  lemma ThreeToggles(likes: LikeTable, owner: Id, comment: Id, g1: string, g2: string, g3: string)
    requires (owner, comment) !in likes
    ensures
      var l1 := Toggled(likes, owner, comment, g1);
      var l2 := Toggled(l1, owner, comment, g2);
      var l3 := Toggled(l2, owner, comment, g3);
      l1[(owner, comment)] == LikeRecord(LikeId(g1), true) &&
      l2[(owner, comment)] == LikeRecord(LikeId(g1), false) &&
      l3[(owner, comment)] == LikeRecord(LikeId(g1), true)
  {
  }

  /** Two toggles of an existing record restore the table. */
  lemma ToggleTwiceRestores(likes: LikeTable, owner: Id, comment: Id, g1: string, g2: string)
    requires (owner, comment) in likes
    ensures Toggled(Toggled(likes, owner, comment, g1), owner, comment, g2) == likes
  {
  }

  class LikeRepository {
    var likes: LikeTable

    constructor (likes: LikeTable)
      ensures this.likes == likes
    {
      this.likes := likes;
    }

    /** Inserts or flips the pair's record in place; `generated` is the id generator's output. */
    method ToggleCommentLike(owner: Id, comment: Id, generated: string)
      modifies this
      ensures likes == Toggled(old(likes), owner, comment, generated)
    {
      var key := (owner, comment);
      if key in likes {
        likes := likes[key := likes[key].(liked := !likes[key].liked)];
      } else {
        likes := likes[key := LikeRecord(LikeId(generated), true)];
      }
    }

    /** Counts the liked records of the comment, one record at a time; a comment without
        records counts 0. */
    method CountCommentLikes(comment: Id) returns (count: nat)
      ensures count == LikeCount(likes, comment)
    {
      count := 0;
      var rest := likes.Keys;
      ghost var seen: set<LikeKey> := {};
      while rest != {}
        invariant rest + seen == likes.Keys && rest !! seen
        invariant count == |LikedKeys(Restrict(likes, seen), comment)|
        decreases |rest|
      {
        var key :| key in rest;
        LikedKeysAfterWrite(Restrict(likes, seen), key, likes[key], comment);
        assert Restrict(likes, seen + {key}) == Restrict(likes, seen)[key := likes[key]];
        assert key !in LikedKeys(Restrict(likes, seen), comment);
        if key.1 == comment && likes[key].liked {
          count := count + 1;
        }
        rest := rest - {key};
        seen := seen + {key};
      }
      assert Restrict(likes, seen) == likes;
    }
  }
}
