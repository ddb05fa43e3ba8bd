/**
 * `useLikes`: liking entries, over an in-memory `likes` table, with the same
 * `loading`/`error` discipline as the follow hook.
 */
module UseLikes {
  import opened Wrappers
  import opened Types
  import opened Seqs
  import opened Backend

  /** `user_id` likes the entry `entry_id`. */
  datatype Like = Like(user_id: UserId, entry_id: string)

  const LikeFailed: string := "いいねに失敗しました"
  const UnlikeFailed: string := "いいね解除に失敗しました"

  /** The filter `.eq('entry_id', entryId)`. */
  function OnEntry(entryId: string): Like -> bool {
    (l: Like) => l.entry_id == entryId
  }

  /** The filters `.eq('user_id', u).eq('entry_id', entryId)`. */
  function IsLike(u: UserId, entryId: string): Like -> bool {
    (l: Like) => l.user_id == u && l.entry_id == entryId
  }

  /** The number of likes of the entry: zero exactly when no row names it. */
  function LikeCount(ls: seq<Like>, entryId: string): (n: nat)
    ensures n <= |ls|
    ensures n == 0 <==> forall i :: 0 <= i < |ls| ==> ls[i].entry_id != entryId
  {
    Count(ls, OnEntry(entryId))
  }

  /** Whether `u` liked the entry by `.single()`: exactly one row. */
  predicate HasLiked(ls: seq<Like>, u: UserId, entryId: string)
    ensures HasLiked(ls, u, entryId) ==> Like(u, entryId) in ls
  {
    Single(ls, IsLike(u, entryId))
  }

  /** The table after `.delete().eq('user_id', u).eq('entry_id', entryId)`. */
  function Unliked(ls: seq<Like>, u: UserId, entryId: string): (r: seq<Like>)
    ensures forall l :: l in r <==> l in ls && l != Like(u, entryId)
    ensures Count(r, IsLike(u, entryId)) == 0
    ensures |r| == |ls| - Count(ls, IsLike(u, entryId))
  {
    if ls == [] then []
    else
      var rest := Unliked(ls[1..], u, entryId);
      assert ls == [ls[0]] + ls[1..];
      var head := if IsLike(u, entryId)(ls[0]) then [] else [ls[0]];
      CountConcat(head, rest, IsLike(u, entryId));
      head + rest
  }

  /** Unliking keeps every other like and the order of the table. */
  lemma {:induction false} UnlikedIsFilter(ls: seq<Like>, u: UserId, entryId: string)
    ensures Unliked(ls, u, entryId) == Filter(ls, (l: Like) => !IsLike(u, entryId)(l))
  {
    if ls != [] {
      UnlikedIsFilter(ls[1..], u, entryId);
    }
  }

  /** A like adds one to its entry's count and leaves every other entry's count alone. */
  lemma LikeCounts(ls: seq<Like>, u: UserId, entryId: string, other: string)
    ensures LikeCount(ls + [Like(u, entryId)], other) == LikeCount(ls, other) + (if other == entryId then 1 else 0)
  {
    CountAppend(ls, Like(u, entryId), OnEntry(other));
  }

  /** An unlike takes away exactly `u`'s likes of the entry: other users' likes still count. */
  lemma {:induction false} UnlikeCounts(ls: seq<Like>, u: UserId, entryId: string, other: string)
    ensures LikeCount(Unliked(ls, u, entryId), other) ==
      LikeCount(ls, other) - (if other == entryId then Count(ls, IsLike(u, entryId)) else 0)
  {
    if ls != [] {
      UnlikeCounts(ls[1..], u, entryId, other);
      var rest := Unliked(ls[1..], u, entryId);
      var head := if IsLike(u, entryId)(ls[0]) then [] else [ls[0]];
      assert Unliked(ls, u, entryId) == head + rest;
      CountConcat(head, rest, OnEntry(other));
    }
  }

  /** Liking an entry one had not liked, then unliking it, restores the table exactly. */
  lemma {:induction false} LikeThenUnlikeRestores(ls: seq<Like>, u: UserId, entryId: string)
    requires Count(ls, IsLike(u, entryId)) == 0
    ensures Unliked(ls + [Like(u, entryId)], u, entryId) == ls
  {
    if ls == [] {
      assert Unliked([Like(u, entryId)], u, entryId) == [] + Unliked([], u, entryId);
    } else {
      assert (ls + [Like(u, entryId)])[1..] == ls[1..] + [Like(u, entryId)];
      assert !IsLike(u, entryId)(ls[0]);
      LikeThenUnlikeRestores(ls[1..], u, entryId);
      assert ls == [ls[0]] + ls[1..];
    }
  }

  /** After a first like the `.single()` check finds it; after an unlike it does not. */
  lemma LikeStateQueries(ls: seq<Like>, u: UserId, entryId: string)
    ensures Count(ls, IsLike(u, entryId)) == 0 ==> HasLiked(ls + [Like(u, entryId)], u, entryId)
    ensures !HasLiked(Unliked(ls, u, entryId), u, entryId)
  {
    CountAppend(ls, Like(u, entryId), IsLike(u, entryId));
  }

  class LikesHook {
    /** The backend's `likes` table. */
    var likes: seq<Like>
    /** What `auth.getUser()` yields. */
    var currentUser: Option<UserId>
    var loading: bool
    var error: Option<string>

    constructor(likes: seq<Like>, currentUser: Option<UserId>)
      ensures this.likes == likes && this.currentUser == currentUser
      ensures !loading && error.None?
    {
      this.likes := likes;
      this.currentUser := currentUser;
      loading := false;
      error := None;
    }

    /** `fetchLikeCount`: the exact count, or 0 when the query fails. */
    method FetchLikeCount(entryId: string, fails: bool) returns (count: nat)
      ensures count == if fails then 0 else LikeCount(likes, entryId)
    {
      if fails {
        count := 0;
      } else {
        count := LikeCount(likes, entryId);
      }
    }

    /**
     * `checkUserLiked`: false without a user or when the query fails with an
     * error other than "not exactly one row"; otherwise whether `.single()`
     * finds the row.
     */
    method CheckUserLiked(entryId: string, fails: bool) returns (liked: bool)
      ensures liked <==> currentUser.Some? && !fails && HasLiked(likes, currentUser.value, entryId)
    {
      if currentUser.None? {
        return false;
      }
      if fails {
        return false;
      }
      liked := HasLiked(likes, currentUser.value, entryId);
    }

    /** `likeEntry`: inserts (signed-in user, entry) unless there is no user or the insert fails. */
    method LikeEntry(entryId: string, fault: Option<Fault>) returns (ok: bool)
      modifies this
      ensures currentUser == old(currentUser)
      ensures ok <==> currentUser.Some? && fault.None?
      ensures ok ==> likes == old(likes) + [Like(currentUser.value, entryId)]
      ensures !ok ==> likes == old(likes)
      ensures currentUser.None? ==> error == Some(NotAuthenticated)
      ensures currentUser.Some? && fault.Some? ==> error == Some(MessageOf(fault.value, LikeFailed))
      ensures ok <==> error.None?
      ensures !loading
    {
      loading := true;
      error := None;
      if currentUser.None? {
        error := Some(NotAuthenticated);
        ok := false;
      } else if fault.Some? {
        error := Some(MessageOf(fault.value, LikeFailed));
        ok := false;
      } else {
        likes := likes + [Like(currentUser.value, entryId)];
        ok := true;
      }
      loading := false;
    }

    /** `unlikeEntry`: deletes every (signed-in user, entry) row; deleting none is still a success. */
    method UnlikeEntry(entryId: string, fault: Option<Fault>) returns (ok: bool)
      modifies this
      ensures currentUser == old(currentUser)
      ensures ok <==> currentUser.Some? && fault.None?
      ensures ok ==> likes == Unliked(old(likes), currentUser.value, entryId)
      ensures !ok ==> likes == old(likes)
      ensures currentUser.None? ==> error == Some(NotAuthenticated)
      ensures currentUser.Some? && fault.Some? ==> error == Some(MessageOf(fault.value, UnlikeFailed))
      ensures ok <==> error.None?
      ensures !loading
    {
      loading := true;
      error := None;
      if currentUser.None? {
        error := Some(NotAuthenticated);
        ok := false;
      } else if fault.Some? {
        error := Some(MessageOf(fault.value, UnlikeFailed));
        ok := false;
      } else {
        likes := Unliked(likes, currentUser.value, entryId);
        ok := true;
      }
      loading := false;
    }

    /**
     * `toggleLike`: the inverse of the hint, then a fresh count of the entry's
     * likes (`countFails` when that count query fails) rather than an
     * adjusted cached number.
     */
    method ToggleLike(entryId: string, currentlyLiked: bool, fault: Option<Fault>, countFails: bool)
      returns (success: bool, newLikedState: bool, newCount: nat)
      modifies this
      ensures currentUser == old(currentUser)
      ensures newLikedState == NewState(currentlyLiked, success)
      ensures success <==> currentUser.Some? && fault.None?
      ensures currentUser.None? ==> error == Some(NotAuthenticated)
      ensures currentUser.Some? && fault.Some? ==>
        error == Some(MessageOf(fault.value, if currentlyLiked then UnlikeFailed else LikeFailed))
      ensures newCount == if countFails then 0 else LikeCount(likes, entryId)
      ensures !success ==> likes == old(likes)
      ensures success ==>
        currentUser.Some? && (Count(likes, IsLike(currentUser.value, entryId)) > 0 <==> newLikedState)
      ensures currentlyLiked && success ==> likes == Unliked(old(likes), currentUser.value, entryId)
      ensures !currentlyLiked && success ==> likes == old(likes) + [Like(currentUser.value, entryId)]
      ensures success <==> error.None?
      ensures !loading
    {
      if currentlyLiked {
        success := UnlikeEntry(entryId, fault);
        newCount := FetchLikeCount(entryId, countFails);
        newLikedState := !success;
      } else {
        success := LikeEntry(entryId, fault);
        if success {
          CountAppend(old(likes), Like(currentUser.value, entryId), IsLike(currentUser.value, entryId));
        }
        newCount := FetchLikeCount(entryId, countFails);
        newLikedState := success;
      }
    }
  }
}
