/**
 * `useFollows`: following other users, over an in-memory `follows` table.
 * A hook instance is an object whose `loading` and `error` fields the
 * operations set; the table and the signed-in user are fields beside them.
 */
module UseFollows {
  import opened Wrappers
  import opened Types
  import opened Seqs
  import opened Backend

  /** A directed edge: `follower_id` follows `following_id`. */
  datatype Follow = Follow(follower_id: UserId, following_id: UserId)

  const SelfFollow: string := "自分自身をフォローできません"
  const FollowFailed: string := "フォローに失敗しました"
  const UnfollowFailed: string := "フォロー解除に失敗しました"

  /** The filter `.eq('following_id', u)`. */
  function FollowerOf(u: UserId): Follow -> bool {
    (f: Follow) => f.following_id == u
  }

  /** The filter `.eq('follower_id', u)`. */
  function FollowedBy(u: UserId): Follow -> bool {
    (f: Follow) => f.follower_id == u
  }

  /** The filters `.eq('follower_id', u).eq('following_id', t)`. */
  function IsEdge(u: UserId, t: UserId): Follow -> bool {
    (f: Follow) => f.follower_id == u && f.following_id == t
  }

  /** The number of `u`'s followers: zero exactly when no row follows `u`. */
  function FollowerCount(fs: seq<Follow>, u: UserId): (n: nat)
    ensures n <= |fs|
    ensures n == 0 <==> forall i :: 0 <= i < |fs| ==> fs[i].following_id != u
  {
    Count(fs, FollowerOf(u))
  }

  /** The number of users `u` follows: zero exactly when no row has `u` as follower. */
  function FollowingCount(fs: seq<Follow>, u: UserId): (n: nat)
    ensures n <= |fs|
    ensures n == 0 <==> forall i :: 0 <= i < |fs| ==> fs[i].follower_id != u
  {
    Count(fs, FollowedBy(u))
  }

  /** Whether `u` follows `t` by `.single()`: exactly one edge. */
  predicate IsFollowing(fs: seq<Follow>, u: UserId, t: UserId)
    ensures IsFollowing(fs, u, t) ==> Follow(u, t) in fs
  {
    Single(fs, IsEdge(u, t))
  }

  /** The table after `.delete().eq('follower_id', u).eq('following_id', t)`. */
  function Unfollowed(fs: seq<Follow>, u: UserId, t: UserId): (r: seq<Follow>)
    ensures forall f :: f in r <==> f in fs && f != Follow(u, t)
    ensures Count(r, IsEdge(u, t)) == 0
    ensures |r| == |fs| - Count(fs, IsEdge(u, t))
  {
    if fs == [] then []
    else
      var rest := Unfollowed(fs[1..], u, t);
      assert fs == [fs[0]] + fs[1..];
      var head := if IsEdge(u, t)(fs[0]) then [] else [fs[0]];
      CountConcat(head, rest, IsEdge(u, t));
      head + rest
  }

  /** Unfollowing keeps every other edge and the order of the table. */
  lemma {:induction false} UnfollowedIsFilter(fs: seq<Follow>, u: UserId, t: UserId)
    ensures Unfollowed(fs, u, t) == Filter(fs, (f: Follow) => !IsEdge(u, t)(f))
  {
    if fs != [] {
      UnfollowedIsFilter(fs[1..], u, t);
    }
  }

  /** A follow adds one follower to the target and one followee to the follower, and nothing else. */
  lemma FollowCounts(fs: seq<Follow>, u: UserId, t: UserId, v: UserId)
    ensures FollowerCount(fs + [Follow(u, t)], v) == FollowerCount(fs, v) + (if v == t then 1 else 0)
    ensures FollowingCount(fs + [Follow(u, t)], v) == FollowingCount(fs, v) + (if v == u then 1 else 0)
  {
    CountAppend(fs, Follow(u, t), FollowerOf(v));
    CountAppend(fs, Follow(u, t), FollowedBy(v));
  }

  /** Unfollowing removes exactly the `(u, t)` edges from `t`'s followers and `u`'s followees. */
  lemma UnfollowCounts(fs: seq<Follow>, u: UserId, t: UserId, v: UserId)
    ensures FollowerCount(Unfollowed(fs, u, t), v) ==
      FollowerCount(fs, v) - (if v == t then Count(fs, IsEdge(u, t)) else 0)
    ensures FollowingCount(Unfollowed(fs, u, t), v) ==
      FollowingCount(fs, v) - (if v == u then Count(fs, IsEdge(u, t)) else 0)
  {
    UnfollowFollowerCount(fs, u, t, v);
    UnfollowFollowingCount(fs, u, t, v);
  }

  lemma {:induction false} UnfollowFollowerCount(fs: seq<Follow>, u: UserId, t: UserId, v: UserId)
    ensures FollowerCount(Unfollowed(fs, u, t), v) ==
      FollowerCount(fs, v) - (if v == t then Count(fs, IsEdge(u, t)) else 0)
  {
    if fs != [] {
      UnfollowFollowerCount(fs[1..], u, t, v);
      var rest := Unfollowed(fs[1..], u, t);
      var head := if IsEdge(u, t)(fs[0]) then [] else [fs[0]];
      assert Unfollowed(fs, u, t) == head + rest;
      CountConcat(head, rest, FollowerOf(v));
    }
  }

  lemma {:induction false} UnfollowFollowingCount(fs: seq<Follow>, u: UserId, t: UserId, v: UserId)
    ensures FollowingCount(Unfollowed(fs, u, t), v) ==
      FollowingCount(fs, v) - (if v == u then Count(fs, IsEdge(u, t)) else 0)
  {
    if fs != [] {
      UnfollowFollowingCount(fs[1..], u, t, v);
      var rest := Unfollowed(fs[1..], u, t);
      var head := if IsEdge(u, t)(fs[0]) then [] else [fs[0]];
      assert Unfollowed(fs, u, t) == head + rest;
      CountConcat(head, rest, FollowedBy(v));
    }
  }

  /** Following a user one did not follow, then unfollowing, restores the table exactly. */
  lemma {:induction false} FollowThenUnfollowRestores(fs: seq<Follow>, u: UserId, t: UserId)
    requires Count(fs, IsEdge(u, t)) == 0
    ensures Unfollowed(fs + [Follow(u, t)], u, t) == fs
  {
    if fs == [] {
      assert Unfollowed([Follow(u, t)], u, t) == [] + Unfollowed([], u, t);
    } else {
      assert (fs + [Follow(u, t)])[1..] == fs[1..] + [Follow(u, t)];
      assert !IsEdge(u, t)(fs[0]);
      FollowThenUnfollowRestores(fs[1..], u, t);
      assert fs == [fs[0]] + fs[1..];
    }
  }

  /** After a follow of a user not yet followed, the `.single()` check finds the edge; after an unfollow it does not. */
  lemma FollowStateQueries(fs: seq<Follow>, u: UserId, t: UserId)
    ensures Count(fs, IsEdge(u, t)) == 0 ==> IsFollowing(fs + [Follow(u, t)], u, t)
    ensures !IsFollowing(Unfollowed(fs, u, t), u, t)
  {
    CountAppend(fs, Follow(u, t), IsEdge(u, t));
  }

  /**
   * User A follows user B, who had no followers: B's follower count becomes 1;
   * A's unfollow through the toggle brings it back to 0.
   */
  lemma FollowScenario(fs: seq<Follow>, a: UserId, b: UserId)
    requires FollowerCount(fs, b) == 0
    ensures FollowerCount(fs + [Follow(a, b)], b) == 1
    ensures FollowerCount(Unfollowed(fs + [Follow(a, b)], a, b), b) == 0
  {
    FollowCounts(fs, a, b, b);
    UnfollowCounts(fs + [Follow(a, b)], a, b, b);
    CountAppend(fs, Follow(a, b), IsEdge(a, b));
    CountSplit(fs, FollowerOf(b), IsEdge(a, b), (f: Follow) => f.following_id == b && f.follower_id != a);
  }

  class FollowsHook {
    /** The backend's `follows` table. */
    var follows: seq<Follow>
    /** What `auth.getUser()` yields. */
    var currentUser: Option<UserId>
    var loading: bool
    var error: Option<string>

    constructor(follows: seq<Follow>, currentUser: Option<UserId>)
      ensures this.follows == follows && this.currentUser == currentUser
      ensures !loading && error.None?
    {
      this.follows := follows;
      this.currentUser := currentUser;
      loading := false;
      error := None;
    }

    /** `fetchFollowerCount`: the exact count, or 0 when the query fails. */
    method FetchFollowerCount(userId: UserId, fails: bool) returns (count: nat)
      ensures count == if fails then 0 else FollowerCount(follows, userId)
    {
      if fails {
        count := 0;
      } else {
        count := FollowerCount(follows, userId);
      }
    }

    /** `fetchFollowingCount`: the exact count, or 0 when the query fails. */
    method FetchFollowingCount(userId: UserId, fails: bool) returns (count: nat)
      ensures count == if fails then 0 else FollowingCount(follows, userId)
    {
      if fails {
        count := 0;
      } else {
        count := FollowingCount(follows, userId);
      }
    }

    /**
     * `checkIsFollowing`: false without a user or when the query fails with
     * an error other than "not exactly one row"; otherwise whether `.single()`
     * finds the edge.
     */
    method CheckIsFollowing(targetUserId: UserId, fails: bool) returns (following: bool)
      ensures following <==> currentUser.Some? && !fails && IsFollowing(follows, currentUser.value, targetUserId)
    {
      if currentUser.None? {
        return false;
      }
      if fails {
        return false;
      }
      following := IsFollowing(follows, currentUser.value, targetUserId);
    }

    /**
     * `followUser`: inserts the edge (signed-in user, target). Without a user,
     * on a self-follow or when the insert fails (`fault`), nothing is inserted
     * and the reason is left in `error`.
     */
    method FollowUser(targetUserId: UserId, fault: Option<Fault>) returns (ok: bool)
      modifies this
      ensures currentUser == old(currentUser)
      ensures ok <==> currentUser.Some? && currentUser.value != targetUserId && fault.None?
      ensures ok ==> follows == old(follows) + [Follow(currentUser.value, targetUserId)]
      ensures !ok ==> follows == old(follows)
      ensures currentUser.None? ==> error == Some(NotAuthenticated)
      ensures currentUser.Some? && currentUser.value == targetUserId ==> error == Some(SelfFollow)
      ensures currentUser.Some? && currentUser.value != targetUserId && fault.Some? ==>
        error == Some(MessageOf(fault.value, FollowFailed))
      ensures ok <==> error.None?
      ensures !loading
    {
      loading := true;
      error := None;
      if currentUser.None? {
        error := Some(NotAuthenticated);
        ok := false;
      } else if currentUser.value == targetUserId {
        error := Some(SelfFollow);
        ok := false;
      } else if fault.Some? {
        error := Some(MessageOf(fault.value, FollowFailed));
        ok := false;
      } else {
        follows := follows + [Follow(currentUser.value, targetUserId)];
        ok := true;
      }
      loading := false;
    }

    /**
     * `unfollowUser`: deletes every (signed-in user, target) edge; deleting
     * no edge at all is still a success.
     */
    method UnfollowUser(targetUserId: UserId, fault: Option<Fault>) returns (ok: bool)
      modifies this
      ensures currentUser == old(currentUser)
      ensures ok <==> currentUser.Some? && fault.None?
      ensures ok ==> follows == Unfollowed(old(follows), currentUser.value, targetUserId)
      ensures !ok ==> follows == old(follows)
      ensures currentUser.None? ==> error == Some(NotAuthenticated)
      ensures currentUser.Some? && fault.Some? ==> error == Some(MessageOf(fault.value, UnfollowFailed))
      ensures ok <==> error.None?
      ensures !loading
    {
      loading := true;
      error := None;
      if currentUser.None? {
        error := Some(NotAuthenticated);
        ok := false;
      } else if fault.Some? {
        error := Some(MessageOf(fault.value, UnfollowFailed));
        ok := false;
      } else {
        follows := Unfollowed(follows, currentUser.value, targetUserId);
        ok := true;
      }
      loading := false;
    }

    /**
     * `toggleFollow`: the inverse of the hint. A success flips the state and
     * the table then agrees with it; a failure reports the hint again.
     */
    method ToggleFollow(targetUserId: UserId, currentlyFollowing: bool, fault: Option<Fault>)
      returns (success: bool, newFollowingState: bool)
      modifies this
      ensures currentUser == old(currentUser)
      ensures newFollowingState == NewState(currentlyFollowing, success)
      ensures success <==> currentUser.Some? && fault.None? && (currentlyFollowing || currentUser.value != targetUserId)
      ensures currentUser.None? ==> error == Some(NotAuthenticated)
      ensures !currentlyFollowing && currentUser.Some? && currentUser.value == targetUserId ==> error == Some(SelfFollow)
      ensures currentUser.Some? && fault.Some? && (currentlyFollowing || currentUser.value != targetUserId) ==>
        error == Some(MessageOf(fault.value, if currentlyFollowing then UnfollowFailed else FollowFailed))
      ensures !success ==> follows == old(follows)
      ensures success ==>
        currentUser.Some? && (Count(follows, IsEdge(currentUser.value, targetUserId)) > 0 <==> newFollowingState)
      ensures currentlyFollowing && success ==> follows == Unfollowed(old(follows), currentUser.value, targetUserId)
      ensures !currentlyFollowing && success ==> follows == old(follows) + [Follow(currentUser.value, targetUserId)]
      ensures success <==> error.None?
      ensures !loading
    {
      if currentlyFollowing {
        success := UnfollowUser(targetUserId, fault);
        newFollowingState := !success;
      } else {
        success := FollowUser(targetUserId, fault);
        if success {
          CountAppend(old(follows), Follow(currentUser.value, targetUserId), IsEdge(currentUser.value, targetUserId));
        }
        newFollowingState := success;
      }
    }
  }
}
