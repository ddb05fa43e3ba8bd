/**
 * `useNotifications`: the signed-in user's notifications, a page at a time,
 * joined with the actors' profiles and the liked entries; the unread count;
 * and marking notifications read.
 */
module UseNotifications {
  import opened Wrappers
  import opened Types
  import opened Seqs
  import opened Order
  import opened Backend

  datatype Kind = LikeNotice | FollowNotice

  datatype Notification = Notification(
    id: string,
    recipient_id: UserId,
    actor_id: UserId,
    kind: Kind,
    entry_id: Option<string>,
    read: bool,
    created_at: string)

  /** A notification with its `actor` and `entry` filled in by the join. */
  datatype NotificationWithData = NotificationWithData(
    notification: Notification,
    actor: Option<Profile>,
    entry: Option<Entry>)

  const FetchFailed: string := "通知の取得に失敗しました"
  const MarkReadFailed: string := "既読化に失敗しました"
  const MarkAllReadFailed: string := "全既読化に失敗しました"

  /** The filter `.eq('recipient_id', u)`. */
  function ForRecipient(u: UserId): Notification -> bool {
    (n: Notification) => n.recipient_id == u
  }

  /** The filters `.eq('recipient_id', u).eq('read', false)`. */
  function UnreadFor(u: UserId): Notification -> bool {
    (n: Notification) => n.recipient_id == u && !n.read
  }

  /** The sort key of `.order('created_at', { ascending: false })`. */
  function ByCreated(): Notification -> string {
    (n: Notification) => n.created_at
  }

  /** All of `u`'s notifications, newest first. */
  function Feed(table: seq<Notification>, u: UserId): (r: seq<Notification>)
    ensures forall n :: n in r <==> n in table && n.recipient_id == u
    ensures multiset(r) == multiset(Filter(table, ForRecipient(u)))
    ensures SortedBy(r, ByCreated(), true)
  {
    var mine := Filter(table, ForRecipient(u));
    var r := SortBy(mine, ByCreated(), true);
    assert multiset(r) == multiset(mine);
    assert forall n :: n in r <==> n in table && n.recipient_id == u by {
      forall n ensures n in r <==> n in table && n.recipient_id == u {
        assert n in r <==> n in multiset(mine);
        assert n in mine <==> n in table && ForRecipient(u)(n);
      }
    }
    r
  }

  /** `.range(offset, offset + limit - 1)` of the feed: at most `limit` notifications, still newest first. */
  function Page(table: seq<Notification>, u: UserId, limit: nat, offset: nat): (r: seq<Notification>)
    ensures |r| == if offset >= |Feed(table, u)| then 0
                   else if offset + limit <= |Feed(table, u)| then limit
                   else |Feed(table, u)| - offset
    ensures forall i :: 0 <= i < |r| ==> offset + i < |Feed(table, u)| && r[i] == Feed(table, u)[offset + i]
    ensures forall i :: 0 <= i < |r| ==> r[i] in table && r[i].recipient_id == u
    ensures SortedBy(r, ByCreated(), true)
  {
    var feed := Feed(table, u);
    var r := Range(feed, offset, limit);
    assert forall i :: 0 <= i < |r| ==> r[i] in feed by {
      forall i | 0 <= i < |r| ensures r[i] in feed {
        assert r[i] == feed[offset + i];
      }
    }
    assert SortedBy(r, ByCreated(), true) by {
      forall i, j | 0 <= i < j < |r| ensures InOrder(ByCreated()(r[i]), ByCreated()(r[j]), true) {
        assert r[i] == feed[offset + i] && r[j] == feed[offset + j];
      }
    }
    r
  }

  /** `notifications.map(n => n.actor_id)`. */
  function ActorIdsOf(page: seq<Notification>): (r: seq<UserId>)
    ensures forall a :: a in r <==> exists i :: 0 <= i < |page| && page[i].actor_id == a
  {
    if page == [] then []
    else
      var rest := ActorIdsOf(page[1..]);
      assert forall i :: 1 <= i < |page| ==> page[i] == page[1..][i - 1];
      [page[0].actor_id] + rest
  }

  /** `notifications.filter(n => n.entry_id).map(n => n.entry_id!)`. */
  function EntryIdsOf(page: seq<Notification>): (r: seq<string>)
    ensures forall x :: x in r <==>
      exists i :: 0 <= i < |page| && Truthy(page[i].entry_id) && page[i].entry_id.value == x
  {
    if page == [] then []
    else
      var rest := EntryIdsOf(page[1..]);
      assert forall i :: 1 <= i < |page| ==> page[i] == page[1..][i - 1];
      (if Truthy(page[0].entry_id) then [page[0].entry_id.value] else []) + rest
  }

  /** `[...new Set(actor ids)]`: each actor of the page once. */
  function ActorIds(page: seq<Notification>): (r: seq<UserId>)
    ensures NoDuplicates(r)
    ensures forall a :: a in r <==> exists i :: 0 <= i < |page| && page[i].actor_id == a
  {
    Dedup(ActorIdsOf(page))
  }

  /** `[...new Set(entry ids)]`: each referenced entry once, drawn only from notifications that name one. */
  function EntryIds(page: seq<Notification>): (r: seq<string>)
    ensures NoDuplicates(r)
    ensures forall x :: x in r <==>
      exists i :: 0 <= i < |page| && Truthy(page[i].entry_id) && page[i].entry_id.value == x
  {
    Dedup(EntryIdsOf(page))
  }

  function ProfileId(): Profile -> string {
    (p: Profile) => p.id
  }

  function EntryId(): Entry -> string {
    (e: Entry) => e.id
  }

  /**
   * The profiles a batched `.in('id', ids)` lookup returns; a failed lookup
   * has no `data`, which the hook reads as no rows.
   */
  function LookupProfiles(profiles: seq<Profile>, ids: seq<UserId>, fails: bool): (r: seq<Profile>)
    ensures fails ==> r == []
    ensures !fails ==> forall p :: p in r <==> p in profiles && p.id in ids
  {
    if fails then [] else Filter(profiles, (p: Profile) => p.id in ids)
  }

  /** The entry lookup, skipped (no rows) when there is no id to look up. */
  function LookupEntries(entries: seq<Entry>, ids: seq<string>, fails: bool): (r: seq<Entry>)
    ensures fails || ids == [] ==> r == []
    ensures !fails ==> forall e :: e in r <==> e in entries && e.id in ids
  {
    if ids == [] || fails then [] else Filter(entries, (e: Entry) => e.id in ids)
  }

  /**
   * The join: each notification of the page, in order, with the profile of
   * its actor and, when it names an entry, that entry.
   */
  function Join(page: seq<Notification>, profileMap: map<string, Profile>, entryMap: map<string, Entry>)
    : (r: seq<NotificationWithData>)
    ensures |r| == |page|
    ensures forall i :: 0 <= i < |r| ==> r[i].notification == page[i]
    ensures forall i :: 0 <= i < |r| ==>
      r[i].actor == (if page[i].actor_id in profileMap then Some(profileMap[page[i].actor_id]) else None)
    ensures forall i :: 0 <= i < |r| ==>
      r[i].entry == (if Truthy(page[i].entry_id) && page[i].entry_id.value in entryMap
                     then Some(entryMap[page[i].entry_id.value]) else None)
  {
    seq(|page|, i requires 0 <= i < |page| =>
      var n := page[i];
      NotificationWithData(
        n,
        if n.actor_id in profileMap then Some(profileMap[n.actor_id]) else None,
        if Truthy(n.entry_id) && n.entry_id.value in entryMap then Some(entryMap[n.entry_id.value]) else None))
  }

  /** The join only ever attaches a looked-up row under its own id. */
  lemma JoinSound(page: seq<Notification>, profileMap: map<string, Profile>, entryMap: map<string, Entry>,
                  profiles: seq<Profile>, entries: seq<Entry>)
    requires forall k :: k in profileMap ==> profileMap[k] in profiles && profileMap[k].id == k
    requires forall k :: k in entryMap ==> entryMap[k] in entries && entryMap[k].id == k
    ensures var r := Join(page, profileMap, entryMap);
      forall i :: 0 <= i < |r| && r[i].actor.Some? ==>
        r[i].actor.value in profiles && r[i].actor.value.id == r[i].notification.actor_id
    ensures var r := Join(page, profileMap, entryMap);
      forall i :: 0 <= i < |r| && r[i].entry.Some? ==>
        r[i].entry.value in entries && Truthy(r[i].notification.entry_id) &&
        r[i].entry.value.id == r[i].notification.entry_id.value
  {
  }

  /**
   * What a successful `fetchNotifications` returns: the page joined with
   * its actors and entries, or `[]` at once for an empty page.
   */
  function Fetched(table: seq<Notification>, profiles: seq<Profile>, entries: seq<Entry>, u: UserId,
                   limit: nat, offset: nat, profilesFail: bool, entriesFail: bool): (r: seq<NotificationWithData>)
    ensures |r| == |Page(table, u, limit, offset)| <= limit
    ensures forall i :: 0 <= i < |r| ==> r[i].notification == Page(table, u, limit, offset)[i]
    ensures forall i :: 0 <= i < |r| && r[i].actor.Some? ==>
      r[i].actor.value in profiles && r[i].actor.value.id == r[i].notification.actor_id
    ensures forall i :: 0 <= i < |r| && r[i].entry.Some? ==>
      r[i].entry.value in entries && Truthy(r[i].notification.entry_id) &&
      r[i].entry.value.id == r[i].notification.entry_id.value
  {
    var page := Page(table, u, limit, offset);
    if page == [] then []
    else
      var actorIds := ActorIds(page);
      var entryIds := EntryIds(page);
      var profileRows := LookupProfiles(profiles, actorIds, profilesFail);
      var entryRows := LookupEntries(entries, entryIds, entriesFail);
      assert forall p :: p in profileRows ==> p in profiles;
      assert forall e :: e in entryRows ==> e in entries;
      var profileMap := IndexBy(profileRows, ProfileId());
      var entryMap := IndexBy(entryRows, EntryId());
      assert forall k :: k in profileMap ==> profileMap[k] in profiles && profileMap[k].id == k;
      assert forall k :: k in entryMap ==> entryMap[k] in entries && entryMap[k].id == k;
      JoinSound(page, profileMap, entryMap, profiles, entries);
      Join(page, profileMap, entryMap)
  }

  /** Profiles are keyed by `id`: no two rows share one. */
  predicate UniqueProfileIds(profiles: seq<Profile>) {
    forall i, j :: 0 <= i < |profiles| && 0 <= j < |profiles| && profiles[i].id == profiles[j].id ==> i == j
  }

  predicate UniqueEntryIds(entries: seq<Entry>) {
    forall i, j :: 0 <= i < |entries| && 0 <= j < |entries| && entries[i].id == entries[j].id ==> i == j
  }

  /**
   * When the profile lookup succeeds, each notification carries exactly the
   * profile whose id is its actor, and no profile when there is none.
   */
  lemma FetchedActors(table: seq<Notification>, profiles: seq<Profile>, entries: seq<Entry>, u: UserId,
                      limit: nat, offset: nat, entriesFail: bool, i: nat)
    requires UniqueProfileIds(profiles)
    requires i < |Fetched(table, profiles, entries, u, limit, offset, false, entriesFail)|
    ensures var r := Fetched(table, profiles, entries, u, limit, offset, false, entriesFail);
      forall k :: 0 <= k < |profiles| && profiles[k].id == r[i].notification.actor_id ==> r[i].actor == Some(profiles[k])
    ensures var r := Fetched(table, profiles, entries, u, limit, offset, false, entriesFail);
      r[i].actor.None? <==> forall p :: p in profiles ==> p.id != r[i].notification.actor_id
  {
    var page := Page(table, u, limit, offset);
    var actorIds := ActorIds(page);
    var rows := LookupProfiles(profiles, actorIds, false);
    var profileMap := IndexBy(rows, ProfileId());
    var r := Fetched(table, profiles, entries, u, limit, offset, false, entriesFail);
    assert r == Join(page, profileMap, IndexBy(LookupEntries(entries, EntryIds(page), entriesFail), EntryId()));
    var a := page[i].actor_id;
    assert a in actorIds;
    forall k | 0 <= k < |profiles| && profiles[k].id == a ensures r[i].actor == Some(profiles[k]) {
      assert profiles[k] in rows;
      assert a in profileMap;
      var p := profileMap[a];
      var k' :| 0 <= k' < |profiles| && profiles[k'] == p;
    }
  }

  /**
   * When the entry lookup succeeds, a notification naming an entry carries
   * exactly that entry, and one naming none carries none.
   */
  lemma FetchedEntries(table: seq<Notification>, profiles: seq<Profile>, entries: seq<Entry>, u: UserId,
                       limit: nat, offset: nat, profilesFail: bool, i: nat)
    requires UniqueEntryIds(entries)
    requires i < |Fetched(table, profiles, entries, u, limit, offset, profilesFail, false)|
    ensures var r := Fetched(table, profiles, entries, u, limit, offset, profilesFail, false);
      !Truthy(r[i].notification.entry_id) ==> r[i].entry.None?
    ensures var r := Fetched(table, profiles, entries, u, limit, offset, profilesFail, false);
      forall k ::
        (Truthy(r[i].notification.entry_id) && 0 <= k < |entries| && entries[k].id == r[i].notification.entry_id.value)
        ==> r[i].entry == Some(entries[k])
  {
    var page := Page(table, u, limit, offset);
    var entryIds := EntryIds(page);
    var rows := LookupEntries(entries, entryIds, false);
    var entryMap := IndexBy(rows, EntryId());
    var r := Fetched(table, profiles, entries, u, limit, offset, profilesFail, false);
    assert r == Join(page, IndexBy(LookupProfiles(profiles, ActorIds(page), profilesFail), ProfileId()), entryMap);
    if Truthy(page[i].entry_id) {
      var x := page[i].entry_id.value;
      assert x in entryIds;
      forall k | 0 <= k < |entries| && entries[k].id == x ensures r[i].entry == Some(entries[k]) {
        assert entries[k] in rows;
        var e := entryMap[x];
        var k' :| 0 <= k' < |entries| && entries[k'] == e;
      }
    }
  }

  /** The number of `u`'s unread notifications: zero exactly when none is unread. */
  function UnreadCount(table: seq<Notification>, u: UserId): (n: nat)
    ensures n <= |table|
    ensures n == 0 <==> forall i :: 0 <= i < |table| ==> table[i].recipient_id != u || table[i].read
  {
    Count(table, UnreadFor(u))
  }

  /** `notifications.update({ read: true }).eq('id', id).eq('recipient_id', u)`. */
  function MarkRead(table: seq<Notification>, id: string, u: UserId): (r: seq<Notification>)
    ensures |r| == |table|
    ensures forall i :: 0 <= i < |table| ==>
      r[i] == if table[i].id == id && table[i].recipient_id == u then table[i].(read := true) else table[i]
  {
    if table == [] then []
    else
      var n := table[0];
      assert forall i :: 1 <= i < |table| ==> table[i] == table[1..][i - 1];
      [if n.id == id && n.recipient_id == u then n.(read := true) else n] + MarkRead(table[1..], id, u)
  }

  /** `notifications.update({ read: true }).eq('recipient_id', u).eq('read', false)`. */
  function MarkAllRead(table: seq<Notification>, u: UserId): (r: seq<Notification>)
    ensures |r| == |table|
    ensures forall i :: 0 <= i < |table| ==>
      r[i] == if table[i].recipient_id == u && !table[i].read then table[i].(read := true) else table[i]
  {
    if table == [] then []
    else
      var n := table[0];
      assert forall i :: 1 <= i < |table| ==> table[i] == table[1..][i - 1];
      [if n.recipient_id == u && !n.read then n.(read := true) else n] + MarkAllRead(table[1..], u)
  }

  /** Marking one notification read never touches another recipient's unread count, whatever the id. */
  lemma {:induction false} MarkReadScoped(table: seq<Notification>, id: string, u: UserId, v: UserId)
    requires v != u
    ensures UnreadCount(MarkRead(table, id, u), v) == UnreadCount(table, v)
    ensures UnreadCount(MarkRead(table, id, u), u) <= UnreadCount(table, u)
  {
    if table != [] {
      MarkReadScoped(table[1..], id, u, v);
      assert MarkRead(table, id, u)[1..] == MarkRead(table[1..], id, u);
    }
  }

  /** Marking the same notification read twice is the same as once. */
  lemma MarkReadIdempotent(table: seq<Notification>, id: string, u: UserId)
    ensures MarkRead(MarkRead(table, id, u), id, u) == MarkRead(table, id, u)
  {
  }

  /** After marking all read the user has no unread notification. */
  lemma {:induction false} MarkAllReadClears(table: seq<Notification>, u: UserId)
    ensures UnreadCount(MarkAllRead(table, u), u) == 0
  {
    var r := MarkAllRead(table, u);
    assert forall i :: 0 <= i < |r| ==> !UnreadFor(u)(r[i]);
  }

  /** Marking all read leaves every other recipient's unread count as it was. */
  lemma {:induction false} MarkAllReadScoped(table: seq<Notification>, u: UserId, v: UserId)
    requires v != u
    ensures UnreadCount(MarkAllRead(table, u), v) == UnreadCount(table, v)
  {
    if table != [] {
      MarkAllReadScoped(table[1..], u, v);
      assert MarkAllRead(table, u)[1..] == MarkAllRead(table[1..], u);
    }
  }

  class NotificationsHook {
    /** The backend's `notifications`, `profiles` and `entries` tables. */
    var notifications: seq<Notification>
    var profiles: seq<Profile>
    var entries: seq<Entry>
    /** What `auth.getUser()` yields. */
    var currentUser: Option<UserId>
    var loading: bool
    var error: Option<string>

    constructor(notifications: seq<Notification>, profiles: seq<Profile>, entries: seq<Entry>,
                currentUser: Option<UserId>)
      ensures this.notifications == notifications && this.profiles == profiles && this.entries == entries
      ensures this.currentUser == currentUser
      ensures !loading && error.None?
    {
      this.notifications := notifications;
      this.profiles := profiles;
      this.entries := entries;
      this.currentUser := currentUser;
      loading := false;
      error := None;
    }

    /**
     * `fetchNotifications(limit = 20, offset = 0)`: `fault` is a failure of the page
     * query; `profilesFail`/`entriesFail` are failures of the two lookups,
     * which only leave the matching fields empty.
     */
    method FetchNotifications(fault: Option<Fault>, profilesFail: bool, entriesFail: bool,
                              limit: nat := 20, offset: nat := 0)
      returns (r: seq<NotificationWithData>)
      modifies this
      ensures notifications == old(notifications) && profiles == old(profiles) && entries == old(entries)
      ensures currentUser == old(currentUser)
      ensures currentUser.None? ==> r == [] && error == Some(NotAuthenticated)
      ensures currentUser.Some? && fault.Some? ==> r == [] && error == Some(MessageOf(fault.value, FetchFailed))
      ensures currentUser.Some? && fault.None? ==>
        r == Fetched(notifications, profiles, entries, currentUser.value, limit, offset, profilesFail, entriesFail) &&
        error.None?
      ensures !loading
    {
      loading := true;
      error := None;
      if currentUser.None? {
        error := Some(NotAuthenticated);
        r := [];
      } else if fault.Some? {
        error := Some(MessageOf(fault.value, FetchFailed));
        r := [];
      } else {
        r := Fetched(notifications, profiles, entries, currentUser.value, limit, offset, profilesFail, entriesFail);
      }
      loading := false;
    }

    /** `fetchUnreadCount`: 0 without a user or when the count fails. */
    method FetchUnreadCount(fails: bool) returns (count: nat)
      ensures count == if currentUser.None? || fails then 0 else UnreadCount(notifications, currentUser.value)
    {
      if currentUser.None? || fails {
        count := 0;
      } else {
        count := UnreadCount(notifications, currentUser.value);
      }
    }

    /** `markAsRead(id)`: only a notification of the signed-in user is marked. */
    method MarkAsRead(notificationId: string, fault: Option<Fault>) returns (ok: bool)
      modifies this
      ensures profiles == old(profiles) && entries == old(entries) && currentUser == old(currentUser)
      ensures ok <==> currentUser.Some? && fault.None?
      ensures ok ==> notifications == MarkRead(old(notifications), notificationId, currentUser.value)
      ensures !ok ==> notifications == old(notifications)
      ensures currentUser.None? ==> error == Some(NotAuthenticated)
      ensures currentUser.Some? && fault.Some? ==> error == Some(MessageOf(fault.value, MarkReadFailed))
      ensures ok <==> error.None?
      ensures !loading
    {
      loading := true;
      error := None;
      if currentUser.None? {
        error := Some(NotAuthenticated);
        ok := false;
      } else if fault.Some? {
        error := Some(MessageOf(fault.value, MarkReadFailed));
        ok := false;
      } else {
        notifications := MarkRead(notifications, notificationId, currentUser.value);
        ok := true;
      }
      loading := false;
    }

    /** `markAllAsRead()`: afterwards the signed-in user has no unread notification. */
    method MarkAllAsRead(fault: Option<Fault>) returns (ok: bool)
      modifies this
      ensures profiles == old(profiles) && entries == old(entries) && currentUser == old(currentUser)
      ensures ok <==> currentUser.Some? && fault.None?
      ensures ok ==> notifications == MarkAllRead(old(notifications), currentUser.value)
      ensures ok ==> UnreadCount(notifications, currentUser.value) == 0
      ensures !ok ==> notifications == old(notifications)
      ensures currentUser.None? ==> error == Some(NotAuthenticated)
      ensures currentUser.Some? && fault.Some? ==> error == Some(MessageOf(fault.value, MarkAllReadFailed))
      ensures ok <==> error.None?
      ensures !loading
    {
      loading := true;
      error := None;
      if currentUser.None? {
        error := Some(NotAuthenticated);
        ok := false;
      } else if fault.Some? {
        error := Some(MessageOf(fault.value, MarkAllReadFailed));
        ok := false;
      } else {
        MarkAllReadClears(notifications, currentUser.value);
        notifications := MarkAllRead(notifications, currentUser.value);
        ok := true;
      }
      loading := false;
    }
  }
}
