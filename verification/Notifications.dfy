/** Notification write-time dedup, state changes and grouping (src/domain/mutation.ts, src/domain/notifications.ts). */
module Notifications {
  import opened Common

  datatype State = Unread | Read | Archived

  datatype Notification = Notification(
    user: string, kind: string, title: string, body: Option<string>, entityType: Option<string>, entityId: Option<string>,
    groupKey: Option<string>, state: State, readAt: Option<int>, createdAt: int)

  datatype Input = Input(
    kind: string, title: string, body: Option<string>, entityType: Option<string>, entityId: Option<string>)

  datatype Channel = InApp | Email

  datatype Pref = Pref(user: string, category: string, channel: Channel)

  /** Rows are named by their position; `prefs` holds what users have switched on or off. */
  datatype Store = Store(rows: seq<Notification>, prefs: map<Pref, bool>)

  datatype Error = BadCategory

  // -------------------------------------------------------------------- recipients

  const CATEGORIES: seq<string> := [
    "task", "approval", "discussion", "case", "design", "registration", "subscription", "attendance", "daily_check",
    "whatsapp", "publishing", "answer", "knowledge", "campaign", "file", "system"]

  function Head(kind: string): string {
    if kind == "" || kind[0] == '.' then "" else [kind[0]] + Head(kind[1..])
  }

  function CategoryOf(kind: string): string {
    if Head(kind) in CATEGORIES then Head(kind) else "system"
  }

  /** Named users, each once, in order, without the excluded one. */
  function Unique(ids: seq<Option<string>>, exclude: Option<string>): seq<string> {
    if ids == [] then []
    else
      var earlier, last := Unique(ids[..|ids| - 1], exclude), ids[|ids| - 1];
      if last.None? || last.value == "" || last == exclude || last.value in earlier then earlier
      else earlier + [last.value]
  }

  predicate Muted(prefs: map<Pref, bool>, user: string, category: string) {
    Pref(user, category, InApp) in prefs && !prefs[Pref(user, category, InApp)]
  }

  function Allowing(users: seq<string>, category: string, prefs: map<Pref, bool>): seq<string> {
    if users == [] then []
    else
      Allowing(users[..|users| - 1], category, prefs) +
      if Muted(prefs, users[|users| - 1], category) then [] else [users[|users| - 1]]
  }

  function Recipients(s: Store, ids: seq<Option<string>>, n: Input, exclude: Option<string>): seq<string> {
    Allowing(Unique(ids, exclude), CategoryOf(n.kind), s.prefs)
  }

  // ------------------------------------------------------- the service functions

  function GroupKey(n: Input): Option<string> {
    if n.entityId.Some? && n.entityId.value != "" then Some(n.kind + ":" + n.entityId.value) else None
  }

  predicate Live(r: Notification, user: string, key: string) {
    r.user == user && r.groupKey == Some(key) && r.state != Archived
  }

  predicate HasLive(rows: seq<Notification>, user: string, key: string) {
    exists i :: 0 <= i < |rows| && Live(rows[i], user, key)
  }

  function NewRow(user: string, n: Input, now: int): Notification {
    Notification(user, n.kind, n.title, n.body, n.entityType, n.entityId, GroupKey(n), Unread, None, now)
  }

  function NewRows(users: seq<string>, n: Input, now: int): seq<Notification> {
    seq(|users|, i requires 0 <= i < |users| => NewRow(users[i], n, now))
  }

  /** A repeat event brings the existing row back to unread. */
  function Bumped(r: Notification, n: Input, now: int): Notification {
    r.(title := n.title, body := n.body, entityType := n.entityType, state := Unread, readAt := None, createdAt := now)
  }

  function BumpAll(rows: seq<Notification>, users: seq<string>, key: string, n: Input, now: int): seq<Notification> {
    seq(|rows|, i requires 0 <= i < |rows| =>
      if rows[i].user in users && Live(rows[i], rows[i].user, key) then Bumped(rows[i], n, now) else rows[i])
  }

  /** Recipients without a live row for the key. */
  function Newcomers(rows: seq<Notification>, users: seq<string>, key: string): seq<string> {
    if users == [] then []
    else
      Newcomers(rows, users[..|users| - 1], key) +
      if HasLive(rows, users[|users| - 1], key) then [] else [users[|users| - 1]]
  }

  function Notified(s: Store, ids: seq<Option<string>>, n: Input, exclude: Option<string>, now: int): Store {
    var users := Recipients(s, ids, n, exclude);
    match GroupKey(n)
    case None => s.(rows := s.rows + NewRows(users, n, now))
    case Some(key) => s.(rows := BumpAll(s.rows, users, key, n, now) + NewRows(Newcomers(s.rows, users, key), n, now))
  }

  function SetState(rows: seq<Notification>, user: string, ids: set<nat>, state: State, readAt: Option<int>): seq<Notification> {
    seq(|rows|, i requires 0 <= i < |rows| =>
      if i in ids && rows[i].user == user then rows[i].(state := state, readAt := readAt) else rows[i])
  }

  function MarkedRead(s: Store, user: string, ids: set<nat>, read: bool, now: int): Store {
    s.(rows := if read then SetState(s.rows, user, ids, Read, Some(now)) else SetState(s.rows, user, ids, Unread, None))
  }

  function ArchivedRows(s: Store, user: string, ids: set<nat>): Store {
    s.(rows := seq(|s.rows|, i requires 0 <= i < |s.rows| =>
      if i in ids && s.rows[i].user == user then s.rows[i].(state := Archived) else s.rows[i]))
  }

  function AllRead(s: Store, user: string, now: int): Store {
    s.(rows := seq(|s.rows|, i requires 0 <= i < |s.rows| =>
      if s.rows[i].user == user && s.rows[i].state == Unread then s.rows[i].(state := Read, readAt := Some(now)) else s.rows[i]))
  }

  function Preferred(s: Store, user: string, category: string, channel: Channel, enabled: bool): Result<Store, Error> {
    if category !in CATEGORIES then Err(BadCategory)
    else Ok(s.(prefs := s.prefs[Pref(user, category, channel) := enabled]))
  }

  class NotificationStore {
    var rows: seq<Notification>
    var prefs: map<Pref, bool>

    function Value(): Store
      reads this
    {
      Store(rows, prefs)
    }

    constructor (s: Store)
      ensures Value() == s
    {
      rows, prefs := s.rows, s.prefs;
    }

    method Notify(ids: seq<Option<string>>, n: Input, exclude: Option<string>, now: int)
      modifies this`rows
      ensures Value() == Notified(old(Value()), ids, n, exclude, now)
    {
      var unique := Unique(ids, exclude);
      var allowed := Allowing(unique, CategoryOf(n.kind), prefs);
      var key := GroupKey(n);
      if key.Some? {
        var newcomers := Newcomers(rows, allowed, key.value);
        rows := BumpAll(rows, allowed, key.value, n, now);
        rows := rows + NewRows(newcomers, n, now);
        return;
      }
      rows := rows + NewRows(allowed, n, now);
    }

    method MarkRead(user: string, ids: set<nat>, read: bool, now: int)
      modifies this`rows
      ensures Value() == MarkedRead(old(Value()), user, ids, read, now)
    {
      var state, readAt := Unread, None;
      if read { state, readAt := Read, Some(now); }
      rows := SetState(rows, user, ids, state, readAt);
    }

    method ArchiveNotifications(user: string, ids: set<nat>)
      modifies this`rows
      ensures Value() == ArchivedRows(old(Value()), user, ids)
    {
      ghost var was := rows;
      for i := 0 to |rows|
        invariant |rows| == |was|
        invariant forall j :: 0 <= j < i ==> rows[j] == ArchivedRows(Store(was, prefs), user, ids).rows[j]
        invariant forall j :: i <= j < |rows| ==> rows[j] == was[j]
      {
        if i in ids && rows[i].user == user { rows := rows[i := rows[i].(state := Archived)]; }
      }
    }

    method MarkAllRead(user: string, now: int)
      modifies this`rows
      ensures Value() == AllRead(old(Value()), user, now)
    {
      ghost var was := rows;
      for i := 0 to |rows|
        invariant |rows| == |was|
        invariant forall j :: 0 <= j < i ==> rows[j] == AllRead(Store(was, prefs), user, now).rows[j]
        invariant forall j :: i <= j < |rows| ==> rows[j] == was[j]
      {
        if rows[i].user == user && rows[i].state == Unread {
          rows := rows[i := rows[i].(state := Read, readAt := Some(now))];
        }
      }
    }

    method SetPreference(user: string, category: string, channel: Channel, enabled: bool) returns (error: Option<Error>)
      modifies this`prefs
      ensures Value() == After(old(Value()), Preferred(old(Value()), user, category, channel, enabled))
      ensures error == ErrorOf(Preferred(old(Value()), user, category, channel, enabled))
    {
      if category !in CATEGORIES { return Some(BadCategory); }
      prefs := prefs[Pref(user, category, channel) := enabled];
      return None;
    }
  }

  // ------------------------------------------------------------------- the invariant

  /** Each user has at most one live row for each group key. */
  ghost predicate Inv(rows: seq<Notification>) {
    forall i, j, u, k :: 0 <= i < j < |rows| && Live(rows[i], u, k) ==> !Live(rows[j], u, k)
  }

  lemma {:induction false} UniqueIsUnique(ids: seq<Option<string>>, exclude: Option<string>)
    ensures NoRepeats(Unique(ids, exclude))
    ensures forall u :: u in Unique(ids, exclude) <==> Some(u) in ids && u != "" && Some(u) != exclude
    decreases |ids|
  {
    if ids != [] {
      var n := |ids| - 1;
      UniqueIsUnique(ids[..n], exclude);
      assert ids == ids[..n] + [ids[n]];
    }
  }

  predicate NoRepeats(users: seq<string>) {
    forall i, j :: 0 <= i < j < |users| ==> users[i] != users[j]
  }

  lemma {:induction false} AllowingIsUnique(users: seq<string>, category: string, prefs: map<Pref, bool>)
    requires NoRepeats(users)
    ensures NoRepeats(Allowing(users, category, prefs))
    ensures forall u :: u in Allowing(users, category, prefs) <==> u in users && !Muted(prefs, u, category)
    decreases |users|
  {
    if users != [] {
      var n := |users| - 1;
      AllowingIsUnique(users[..n], category, prefs);
      assert users == users[..n] + [users[n]];
      assert users[n] !in users[..n];
    }
  }

  lemma {:induction false} FreshIsUnique(rows: seq<Notification>, users: seq<string>, key: string)
    requires NoRepeats(users)
    ensures NoRepeats(Newcomers(rows, users, key))
    ensures forall u :: u in Newcomers(rows, users, key) <==> u in users && !HasLive(rows, u, key)
    decreases |users|
  {
    if users != [] {
      var n := |users| - 1;
      FreshIsUnique(rows, users[..n], key);
      assert users == users[..n] + [users[n]];
      assert users[n] !in users[..n];
    }
  }

  /** The named users who may receive: each once, minus the excluded and the muted. */
  lemma RecipientsFacts(s: Store, ids: seq<Option<string>>, n: Input, exclude: Option<string>)
    ensures var users := Recipients(s, ids, n, exclude);
            && NoRepeats(users)
            && forall u :: u in users <==> Some(u) in ids && u != "" && Some(u) != exclude && !Muted(s.prefs, u, CategoryOf(n.kind))
  {
    UniqueIsUnique(ids, exclude);
    AllowingIsUnique(Unique(ids, exclude), CategoryOf(n.kind), s.prefs);
  }

  /** A preference changes who receives for one user, one category and the in-app channel, and for nobody else. */
  lemma PreferenceTakes(s: Store, user: string, category: string, channel: Channel, enabled: bool, n: Input, ids: seq<Option<string>>, u: string)
    requires category in CATEGORIES
    ensures var t := Preferred(s, user, category, channel, enabled);
            && t.Ok?
            && (u in Recipients(t.value, ids, n, None) <==>
                  if channel == InApp && u == user && CategoryOf(n.kind) == category then enabled && Some(u) in ids && u != ""
                  else u in Recipients(s, ids, n, None))
  {
    RecipientsFacts(s, ids, n, None);
    RecipientsFacts(Preferred(s, user, category, channel, enabled).value, ids, n, None);
  }

  lemma BumpKeepsLiveness(rows: seq<Notification>, users: seq<string>, key: string, n: Input, now: int)
    ensures var rows' := BumpAll(rows, users, key, n, now);
            && |rows'| == |rows|
            && forall i, u, k :: 0 <= i < |rows| ==> (Live(rows'[i], u, k) <==> Live(rows[i], u, k))
  {
  }

  lemma KeyedKeepsInv(rows: seq<Notification>, users: seq<string>, key: string, n: Input, now: int)
    requires Inv(rows) && NoRepeats(users) && GroupKey(n) == Some(key)
    ensures Inv(BumpAll(rows, users, key, n, now) + NewRows(Newcomers(rows, users, key), n, now))
  {
    var bumped, newcomers := BumpAll(rows, users, key, n, now), Newcomers(rows, users, key);
    var rows' := bumped + NewRows(newcomers, n, now);
    BumpKeepsLiveness(rows, users, key, n, now);
    FreshIsUnique(rows, users, key);
    forall i, j, u, k | 0 <= i < j < |rows'| && Live(rows'[i], u, k)
      ensures !Live(rows'[j], u, k)
    {
      if j >= |rows| {
        var x := j - |rows|;
        assert rows'[j] == NewRow(newcomers[x], n, now) && newcomers[x] in newcomers;
        assert !HasLive(rows, newcomers[x], key);
        if i >= |rows| { assert rows'[i] == NewRow(newcomers[i - |rows|], n, now); }
      }
    }
  }

  lemma UnkeyedKeepsInv(rows: seq<Notification>, users: seq<string>, n: Input, now: int)
    requires Inv(rows) && GroupKey(n).None?
    ensures Inv(rows + NewRows(users, n, now))
  {
    var rows' := rows + NewRows(users, n, now);
    assert forall i :: |rows| <= i < |rows'| ==> rows'[i].groupKey.None?;
  }

  lemma NotifyKeepsInv(s: Store, ids: seq<Option<string>>, n: Input, exclude: Option<string>, now: int)
    requires Inv(s.rows)
    ensures Inv(Notified(s, ids, n, exclude, now).rows)
  {
    var users := Recipients(s, ids, n, exclude);
    RecipientsFacts(s, ids, n, exclude);
    match GroupKey(n)
    case None => UnkeyedKeepsInv(s.rows, users, n, now);
    case Some(key) => KeyedKeepsInv(s.rows, users, key, n, now);
  }

  predicate FreshFor(r: Notification, u: string, n: Input, now: int) {
    GroupKey(n).Some? && Live(r, u, GroupKey(n).value) && r.state == Unread && r.title == n.title && r.body == n.body && r.createdAt == now
  }

  lemma ReachedRow(rows: seq<Notification>, users: seq<string>, n: Input, now: int, u: string) returns (i: nat)
    requires GroupKey(n).Some? && NoRepeats(users) && u in users
    ensures var after := BumpAll(rows, users, GroupKey(n).value, n, now) + NewRows(Newcomers(rows, users, GroupKey(n).value), n, now);
            i < |after| && FreshFor(after[i], u, n, now)
  {
    var key := GroupKey(n).value;
    FreshIsUnique(rows, users, key);
    if HasLive(rows, u, key) {
      i :| 0 <= i < |rows| && Live(rows[i], u, key);
    } else {
      var newcomers := Newcomers(rows, users, key);
      assert u in newcomers;
      var f :| 0 <= f < |newcomers| && newcomers[f] == u;
      i := |rows| + f;
      assert NewRows(newcomers, n, now)[f] == NewRow(u, n, now);
    }
  }

  lemma LiveIsAlone(rows: seq<Notification>, i: nat, u: string, key: string)
    requires Inv(rows) && i < |rows| && Live(rows[i], u, key)
    ensures forall j :: 0 <= j < |rows| && j != i ==> !Live(rows[j], u, key)
  {
  }

  /** After a keyed notify every allowed recipient has exactly one live row for the key, unread and with the new text. */
  lemma NotifyReaches(s: Store, ids: seq<Option<string>>, n: Input, exclude: Option<string>, now: int, u: string)
    requires Inv(s.rows) && GroupKey(n).Some? && u in Recipients(s, ids, n, exclude)
    ensures var rows := Notified(s, ids, n, exclude, now).rows;
            exists i :: 0 <= i < |rows| && FreshFor(rows[i], u, n, now)
                        && forall j :: 0 <= j < |rows| && j != i ==> !Live(rows[j], u, GroupKey(n).value)
  {
    RecipientsFacts(s, ids, n, exclude);
    NotifyKeepsInv(s, ids, n, exclude, now);
    var i := ReachedRow(s.rows, Recipients(s, ids, n, exclude), n, now, u);
    LiveIsAlone(Notified(s, ids, n, exclude, now).rows, i, u, GroupKey(n).value);
  }

  // ---------------------------------------------------- what each operation does, exactly

  /** A row made for `u` by the event `n`. */
  predicate MadeFor(r: Notification, u: string, n: Input, now: int) {
    && r.user == u && r.kind == n.kind && r.title == n.title && r.body == n.body
    && r.entityType == n.entityType && r.entityId == n.entityId
    && r.state == Unread && r.readAt.None? && r.createdAt == now
  }

  /** An event about an entity is keyed by its kind and that entity; any other has no key. */
  lemma KeyExactly(n: Input)
    ensures GroupKey(n).None? <==> n.entityId.None? || n.entityId.value == ""
    ensures GroupKey(n).Some? ==> GroupKey(n).value == n.kind + ":" + n.entityId.value
  {
  }

  predicate UnkeyedFor(r: Notification, u: string, n: Input, now: int) {
    MadeFor(r, u, n, now) && r.groupKey.None?
  }

  /**
   * An event without a key adds one row for each recipient, and touches nothing else: the new
   * rows, behind the old ones, are in the recipients' order, unread, without a key.
   */
  lemma UnkeyedExactly(s: Store, ids: seq<Option<string>>, n: Input, exclude: Option<string>, now: int)
    requires n.entityId.None? || n.entityId.value == ""
    ensures var t, users := Notified(s, ids, n, exclude, now), Recipients(s, ids, n, exclude);
            && t.prefs == s.prefs && |t.rows| == |s.rows| + |users| && t.rows[..|s.rows|] == s.rows
            && EachGets(t.rows[|s.rows|..], users, n, now)
  {
  }

  /** Row by row, the users in order each get one. */
  predicate EachGets(rows: seq<Notification>, users: seq<string>, n: Input, now: int) {
    |rows| == |users| && forall x :: 0 <= x < |users| ==> UnkeyedFor(rows[x], users[x], n, now)
  }

  /** So each recipient gets exactly one. */
  lemma EachGetsOne(rows: seq<Notification>, users: seq<string>, n: Input, now: int, u: string)
    requires EachGets(rows, users, n, now) && NoRepeats(users) && u in users
    ensures exists x :: 0 <= x < |rows| && UnkeyedFor(rows[x], u, n, now) && forall y :: 0 <= y < |rows| && y != x ==> rows[y].user != u
  {
    var x :| 0 <= x < |users| && users[x] == u;
    assert UnkeyedFor(rows[x], u, n, now);
    forall y | 0 <= y < |rows| && y != x
      ensures rows[y].user != u
    {
      assert UnkeyedFor(rows[y], users[y], n, now);
    }
  }

  lemma UnkeyedReachesOnce(s: Store, ids: seq<Option<string>>, n: Input, exclude: Option<string>, now: int, u: string)
    requires (n.entityId.None? || n.entityId.value == "") && u in Recipients(s, ids, n, exclude)
    ensures |Notified(s, ids, n, exclude, now).rows| >= |s.rows|
    ensures var more := Notified(s, ids, n, exclude, now).rows[|s.rows|..];
            exists x :: 0 <= x < |more| && UnkeyedFor(more[x], u, n, now) && forall y :: 0 <= y < |more| && y != x ==> more[y].user != u
  {
    UnkeyedExactly(s, ids, n, exclude, now);
    RecipientsFacts(s, ids, n, exclude);
    EachGetsOne(Notified(s, ids, n, exclude, now).rows[|s.rows|..], Recipients(s, ids, n, exclude), n, now, u);
  }

  /** The row takes the event's text and time and is unread again; whose it is, and for what, stays. */
  predicate Freshened(r: Notification, after: Notification, n: Input, now: int) {
    after == r.(title := n.title, body := n.body, entityType := n.entityType, state := Unread, readAt := None, createdAt := now)
  }

  /** A keyed event freshens the recipients' live rows of its key and leaves every other old row. */
  lemma KeyedFreshens(s: Store, ids: seq<Option<string>>, n: Input, exclude: Option<string>, now: int, key: string)
    requires GroupKey(n) == Some(key)
    ensures var rows, users := Notified(s, ids, n, exclude, now).rows, Recipients(s, ids, n, exclude);
            && Notified(s, ids, n, exclude, now).prefs == s.prefs && |rows| >= |s.rows|
            && forall i :: 0 <= i < |s.rows| ==>
                 if s.rows[i].user in users && s.rows[i].groupKey == Some(key) && s.rows[i].state != Archived
                 then Freshened(s.rows[i], rows[i], n, now) else rows[i] == s.rows[i]
  {
  }

  /** And it adds rows for recipients without a live one only (for each of them: see above). */
  lemma KeyedAdds(s: Store, ids: seq<Option<string>>, n: Input, exclude: Option<string>, now: int, key: string, i: nat)
    requires GroupKey(n) == Some(key) && |s.rows| <= i < |Notified(s, ids, n, exclude, now).rows|
    ensures var r := Notified(s, ids, n, exclude, now).rows[i];
            && r.user in Recipients(s, ids, n, exclude) && MadeFor(r, r.user, n, now) && r.groupKey == Some(key)
            && forall j :: 0 <= j < |s.rows| ==>
                 !(s.rows[j].user == r.user && s.rows[j].groupKey == Some(key) && s.rows[j].state != Archived)
  {
    var users := Recipients(s, ids, n, exclude);
    RecipientsFacts(s, ids, n, exclude);
    FreshIsUnique(s.rows, users, key);
    var u := Newcomers(s.rows, users, key)[i - |s.rows|];
    assert Notified(s, ids, n, exclude, now).rows[i] == NewRow(u, n, now);
    assert u in Newcomers(s.rows, users, key);
    NotLive(s.rows, u, key);
  }

  lemma NotLive(rows: seq<Notification>, u: string, key: string)
    requires !HasLive(rows, u, key)
    ensures forall j :: 0 <= j < |rows| ==> !(rows[j].user == u && rows[j].groupKey == Some(key) && rows[j].state != Archived)
  {
    forall j | 0 <= j < |rows| ensures !Live(rows[j], u, key) { }
  }

  /** A kind's category is what stands before its first dot, if that is one of the categories. */
  lemma {:induction false} HeadExactly(kind: string, n: nat)
    requires n <= |kind| && (n < |kind| ==> kind[n] == '.') && forall i :: 0 <= i < n ==> kind[i] != '.'
    ensures Head(kind) == kind[..n]
    ensures CategoryOf(kind) == if kind[..n] in CATEGORIES then kind[..n] else "system"
    decreases n
  {
    if n > 0 {
      HeadExactly(kind[1..], n - 1);
      assert kind[..n] == [kind[0]] + kind[1..][..n - 1];
    }
  }

  /** Marking read or unread, archiving and marking all read touch the user's own rows alone, one by one. */
  lemma MarkReadExactly(s: Store, user: string, ids: set<nat>, read: bool, now: int)
    ensures var t := MarkedRead(s, user, ids, read, now);
            && t.prefs == s.prefs && |t.rows| == |s.rows|
            && forall i :: 0 <= i < |s.rows| ==>
                 t.rows[i] == if i in ids && s.rows[i].user == user
                              then s.rows[i].(state := if read then Read else Unread, readAt := if read then Some(now) else None)
                              else s.rows[i]
  {
  }

  lemma ArchiveExactly(s: Store, user: string, ids: set<nat>)
    ensures var t := ArchivedRows(s, user, ids);
            && t.prefs == s.prefs && |t.rows| == |s.rows|
            && forall i :: 0 <= i < |s.rows| ==>
                 t.rows[i] == if i in ids && s.rows[i].user == user then s.rows[i].(state := Archived) else s.rows[i]
  {
  }

  lemma MarkAllReadExactly(s: Store, user: string, now: int)
    ensures var t := AllRead(s, user, now);
            && t.prefs == s.prefs && |t.rows| == |s.rows|
            && (forall i :: 0 <= i < |s.rows| ==> !(t.rows[i].user == user && t.rows[i].state == Unread))
            && forall i :: 0 <= i < |s.rows| ==>
                 t.rows[i] == if s.rows[i].user == user && s.rows[i].state == Unread
                              then s.rows[i].(state := Read, readAt := Some(now)) else s.rows[i]
  {
  }

  // -------------------------------------------------------- marking archived rows read

  /** The call would bring an archived row back beside another one of its group. */
  predicate Revives(rows: seq<Notification>, user: string, ids: set<nat>, i: nat, j: nat) {
    && i < |rows| && j < |rows| && i != j
    && rows[i].user == user == rows[j].user && rows[i].groupKey.Some? && rows[i].groupKey == rows[j].groupKey
    && i in ids && rows[i].state == Archived && (j in ids || rows[j].state != Archived)
  }

  predicate Clashes(rows: seq<Notification>, user: string, ids: set<nat>) {
    exists i, j :: 0 <= i < |rows| && 0 <= j < |rows| && Revives(rows, user, ids, i, j)
  }

  /** Marking read (or unread) keeps the one-row rule exactly when it revives no row beside another of its group. */
  lemma MarkReadKeepsInvExactly(s: Store, user: string, ids: set<nat>, read: bool, now: int)
    requires Inv(s.rows)
    ensures Inv(MarkedRead(s, user, ids, read, now).rows) <==> !Clashes(s.rows, user, ids)
  {
    var rows := s.rows;
    var rows' := MarkedRead(s, user, ids, read, now).rows;
    if i, j :| 0 <= i < |rows| && 0 <= j < |rows| && Revives(rows, user, ids, i, j) {
      var key := rows[i].groupKey.value;
      assert Live(rows'[i], user, key) && Live(rows'[j], user, key);
      assert !Inv(rows');
    } else {
      forall i, j, u, k | 0 <= i < j < |rows'| && Live(rows'[i], u, k)
        ensures !Live(rows'[j], u, k)
      {
        assert !Revives(rows, user, ids, i, j) && !Revives(rows, user, ids, j, i);
        assert Live(rows[i], u, k) ==> !Live(rows[j], u, k);
      }
    }
  }

  /** In particular it is safe on rows that are not archived. */
  lemma LiveIdsNeverClash(rows: seq<Notification>, user: string, ids: set<nat>)
    requires forall i :: i in ids && i < |rows| && rows[i].user == user ==> rows[i].state != Archived
    ensures !Clashes(rows, user, ids)
  {
  }

  /** An archived row marked read beside its fresh successor breaks the rule. */
  lemma MarkReadCanDuplicate() returns (s: Store)
    ensures Inv(s.rows) && !Inv(MarkedRead(s, "u", {0}, true, 0).rows)
  {
    var n := Input("task.assigned", "T", None, Some("Task"), Some("1"));
    var row := NewRow("u", n, 0);
    s := Store([row.(state := Archived), row], map[]);
    assert GroupKey(n).Some?;
    assert Revives(s.rows, "u", {0}, 0, 1);
    MarkReadKeepsInvExactly(s, "u", {0}, true, 0);
  }

  // ------------------------------------------------------------------------- runs

  datatype Op =
    | DoNotify(ids: seq<Option<string>>, n: Input, exclude: Option<string>, now: int)
    | DoMarkRead(user: string, rows: set<nat>, read: bool, now: int)
    | DoArchive(user: string, rows: set<nat>)
    | DoMarkAllRead(user: string, now: int)
    | DoPrefer(user: string, category: string, channel: Channel, enabled: bool)

  function Perform(s: Store, op: Op): Store {
    match op
    case DoNotify(ids, n, exclude, now) => Notified(s, ids, n, exclude, now)
    case DoMarkRead(user, ids, read, now) => MarkedRead(s, user, ids, read, now)
    case DoArchive(user, ids) => ArchivedRows(s, user, ids)
    case DoMarkAllRead(user, now) => AllRead(s, user, now)
    case DoPrefer(user, category, channel, enabled) => After(s, Preferred(s, user, category, channel, enabled))
  }

  function Run(s: Store, ops: seq<Op>): Store
    decreases |ops|
  {
    if ops == [] then s else Run(Perform(s, ops[0]), ops[1..])
  }

  /** No mark-read of the run clashes at its time. */
  predicate Harmless(s: Store, ops: seq<Op>)
    decreases |ops|
  {
    ops == [] ||
    ((ops[0].DoMarkRead? ==> !Clashes(s.rows, ops[0].user, ops[0].rows)) && Harmless(Perform(s, ops[0]), ops[1..]))
  }

  lemma {:induction false} OneLiveRowPerGroup(s: Store, ops: seq<Op>)
    requires Inv(s.rows) && Harmless(s, ops)
    ensures Inv(Run(s, ops).rows)
    decreases |ops|
  {
    if ops != [] {
      match ops[0] {
        case DoNotify(ids, n, exclude, now) => NotifyKeepsInv(s, ids, n, exclude, now);
        case DoMarkRead(user, ids, read, now) => MarkReadKeepsInvExactly(s, user, ids, read, now);
        case DoArchive(user, ids) => ArchiveKeepsInv(s, user, ids);
        case DoMarkAllRead(user, now) => AllReadKeepsInv(s, user, now);
        case DoPrefer(user, category, channel, enabled) =>
      }
      OneLiveRowPerGroup(Perform(s, ops[0]), ops[1..]);
    }
  }

  lemma ArchiveKeepsInv(s: Store, user: string, ids: set<nat>)
    requires Inv(s.rows)
    ensures Inv(ArchivedRows(s, user, ids).rows)
  {
    var rows' := ArchivedRows(s, user, ids).rows;
    assert forall i, u, k :: 0 <= i < |rows'| && Live(rows'[i], u, k) ==> Live(s.rows[i], u, k);
  }

  lemma AllReadKeepsInv(s: Store, user: string, now: int)
    requires Inv(s.rows)
    ensures Inv(AllRead(s, user, now).rows)
  {
    var rows' := AllRead(s, user, now).rows;
    assert forall i, u, k :: 0 <= i < |rows'| && Live(rows'[i], u, k) ==> Live(s.rows[i], u, k);
  }

  // ------------------------------------------------------------------------ grouping

  datatype Entry = Entry(id: nat, n: Notification)

  /** A row's group: its key, or itself when it has none. */
  datatype GroupRef = Keyed(key: string) | Single(id: nat)

  function RefOf(e: Entry): GroupRef {
    if e.n.groupKey.Some? then Keyed(e.n.groupKey.value) else Single(e.id)
  }

  datatype Group = Group(
    ref: GroupRef, latest: Entry, count: nat, ids: seq<nat>, href: Option<string>, category: string, unread: bool)

  /** The section of the application that shows an entity. */
  function Section(entityType: string): Option<string> {
    match entityType
    case "Task" => Some("/tasks")
    case "CustomerCase" => Some("/cases")
    case "ApprovalRequest" => Some("/approvals")
    case "DesignRequest" => Some("/design")
    case "RegistrationCase" => Some("/registrations")
    case "Subscription" => Some("/subscriptions")
    case "Campaign" => Some("/campaigns")
    case "PublishingItem" => Some("/social")
    case "WhatsappCampaign" => Some("/whatsapp")
    case "ApprovedAnswer" => Some("/answers")
    case "KnowledgeArticle" => Some("/knowledge")
    case "File" => Some("/files")
    case "Channel" => Some("/discussions")
    case "AttendanceCorrection" => Some("/attendance")
    case "ChecklistInstance" => Some("/daily-checks")
    case _ => None
  }

  function Href(entityType: Option<string>, entityId: Option<string>): Option<string> {
    if entityType.GetOr("") == "" || entityId.GetOr("") == "" || Section(entityType.value).None? then None
    else if entityType.value == "AttendanceCorrection" then Section(entityType.value)
    else Some(Section(entityType.value).value + "/" + entityId.value)
  }

  function NewGroup(e: Entry): Group {
    Group(RefOf(e), e, 1, [e.id], Href(e.n.entityType, e.n.entityId), CategoryOf(e.n.kind), e.n.state == Unread)
  }

  /** The groups in order of first appearance. */
  function Refs(entries: seq<Entry>): seq<GroupRef> {
    if entries == [] then []
    else
      var earlier, ref := Refs(entries[..|entries| - 1]), RefOf(entries[|entries| - 1]);
      if ref in earlier then earlier else earlier + [ref]
  }

  function IdsOf(entries: seq<Entry>, ref: GroupRef): seq<nat> {
    if entries == [] then []
    else IdsOf(entries[..|entries| - 1], ref) + if RefOf(entries[|entries| - 1]) == ref then [entries[|entries| - 1].id] else []
  }

  /** What the group of `ref` must be: its rows in order, the first of them, and whether any is unread. */
  predicate Describes(g: Group, entries: seq<Entry>, ref: GroupRef) {
    && g.ref == ref
    && g.ids == IdsOf(entries, ref) && g.count == |g.ids|
    && (g.unread <==> exists i :: 0 <= i < |entries| && RefOf(entries[i]) == ref && entries[i].n.state == Unread)
    && (exists f :: 0 <= f < |entries| && entries[f] == g.latest && RefOf(entries[f]) == ref
                    && forall i :: 0 <= i < f ==> RefOf(entries[i]) != ref)
    && g.category == CategoryOf(g.latest.n.kind) && g.href == Href(g.latest.n.entityType, g.latest.n.entityId)
  }

  lemma RefsComplete(entries: seq<Entry>)
    ensures forall i :: 0 <= i < |entries| ==> RefOf(entries[i]) in Refs(entries)
    ensures forall r :: r in Refs(entries) ==> exists i :: 0 <= i < |entries| && RefOf(entries[i]) == r
    ensures forall i, j :: 0 <= i < j < |Refs(entries)| ==> Refs(entries)[i] != Refs(entries)[j]
  {
    if entries != [] {
      var n := |entries| - 1;
      RefsComplete(entries[..n]);
      assert forall i :: 0 <= i < n ==> entries[..n][i] == entries[i];
      assert RefOf(entries[n]) in Refs(entries);
    }
  }

  lemma DescribesSame(g: Group, entries: seq<Entry>, e: Entry, ref: GroupRef)
    requires Describes(g, entries, ref) && RefOf(e) != ref
    ensures Describes(g, entries + [e], ref)
  {
    var es := entries + [e];
    assert es[..|entries|] == entries;
    var f :| 0 <= f < |entries| && entries[f] == g.latest && RefOf(entries[f]) == ref
             && forall i :: 0 <= i < f ==> RefOf(entries[i]) != ref;
    assert es[f] == g.latest && forall i :: 0 <= i < f ==> es[i] == entries[i];
    if i :| 0 <= i < |entries| && RefOf(entries[i]) == ref && entries[i].n.state == Unread { assert es[i] == entries[i]; }
  }

  lemma DescribesMore(g: Group, entries: seq<Entry>, e: Entry)
    requires Describes(g, entries, RefOf(e))
    ensures Describes(g.(count := g.count + 1, ids := g.ids + [e.id], unread := g.unread || e.n.state == Unread),
                      entries + [e], RefOf(e))
  {
    var es, ref := entries + [e], RefOf(e);
    assert es[..|entries|] == entries && es[|entries|] == e;
    var f :| 0 <= f < |entries| && entries[f] == g.latest && RefOf(entries[f]) == ref
             && forall i :: 0 <= i < f ==> RefOf(entries[i]) != ref;
    assert es[f] == g.latest && forall i :: 0 <= i < f ==> es[i] == entries[i];
    if i :| 0 <= i < |entries| && RefOf(entries[i]) == ref && entries[i].n.state == Unread { assert es[i] == entries[i]; }
  }

  lemma {:induction false} IdsOfAbsent(entries: seq<Entry>, ref: GroupRef)
    requires forall i :: 0 <= i < |entries| ==> RefOf(entries[i]) != ref
    ensures IdsOf(entries, ref) == []
    decreases |entries|
  {
    if entries != [] {
      assert forall i :: 0 <= i < |entries| - 1 ==> entries[..|entries| - 1][i] == entries[i];
      IdsOfAbsent(entries[..|entries| - 1], ref);
    }
  }

  lemma DescribesFirst(entries: seq<Entry>, e: Entry)
    requires RefOf(e) !in Refs(entries)
    ensures Describes(NewGroup(e), entries + [e], RefOf(e))
  {
    RefsComplete(entries);
    assert forall i :: 0 <= i < |entries| ==> RefOf(entries[i]) != RefOf(e);
    DescribesAlone(entries, e);
  }

  lemma DescribesAlone(entries: seq<Entry>, e: Entry)
    requires forall i :: 0 <= i < |entries| ==> RefOf(entries[i]) != RefOf(e)
    ensures Describes(NewGroup(e), entries + [e], RefOf(e))
  {
    var es, n := entries + [e], |entries|;
    assert es[..n] == entries && es[n] == e;
    assert forall i :: 0 <= i < n ==> es[i] == entries[i];
    IdsOfAbsent(entries, RefOf(e));
    assert IdsOf(es, RefOf(e)) == [] + [e.id] == [e.id];
  }

  function AddEntry(byKey: map<GroupRef, Group>, e: Entry): map<GroupRef, Group> {
    var ref := RefOf(e);
    if ref !in byKey then byKey[ref := NewGroup(e)]
    else
      var g := byKey[ref];
      byKey[ref := g.(count := g.count + 1, ids := g.ids + [e.id], unread := g.unread || e.n.state == Unread)]
  }

  predicate Grouped(byKey: map<GroupRef, Group>, entries: seq<Entry>) {
    && byKey.Keys == (set r | r in Refs(entries))
    && forall r :: r in byKey ==> Describes(byKey[r], entries, r)
  }

  lemma AddKeepsGrouped(byKey: map<GroupRef, Group>, entries: seq<Entry>, e: Entry)
    requires Grouped(byKey, entries)
    ensures Grouped(AddEntry(byKey, e), entries + [e])
  {
    var ref, after := RefOf(e), AddEntry(byKey, e);
    assert (entries + [e])[..|entries|] == entries;
    forall r | r in after
      ensures Describes(after[r], entries + [e], r)
    {
      if r != ref { DescribesSame(byKey[r], entries, e, r); }
      else if ref in byKey { DescribesMore(byKey[ref], entries, e); }
      else { DescribesFirst(entries, e); }
    }
  }

  /** The grouping loop: a map from group to what is known of it, and the order of first appearance. */
  method GroupEntries(entries: seq<Entry>) returns (groups: seq<Group>)
    ensures |groups| == |Refs(entries)|
    ensures forall i :: 0 <= i < |groups| ==> Describes(groups[i], entries, Refs(entries)[i])
  {
    var byKey: map<GroupRef, Group> := map[];
    var order: seq<GroupRef> := [];
    for i := 0 to |entries|
      invariant order == Refs(entries[..i])
      invariant Grouped(byKey, entries[..i])
    {
      var e := entries[i];
      assert entries[..i + 1] == entries[..i] + [e];
      assert entries[..i + 1][..i] == entries[..i];
      AddKeepsGrouped(byKey, entries[..i], e);
      if RefOf(e) !in byKey { order := order + [RefOf(e)]; }
      byKey := AddEntry(byKey, e);
    }
    assert entries[..|entries|] == entries;
    groups := seq(|order|, i requires 0 <= i < |order| && order[i] in byKey => byKey[order[i]]);
  }

  function AllIds(entries: seq<Entry>): seq<nat> {
    if entries == [] then [] else AllIds(entries[..|entries| - 1]) + [entries[|entries| - 1].id]
  }

  /** The ids of the first `n` groups together. */
  function Together(entries: seq<Entry>, refs: seq<GroupRef>): multiset<nat> {
    if refs == [] then multiset{}
    else Together(entries, refs[..|refs| - 1]) + multiset(IdsOf(entries, refs[|refs| - 1]))
  }

  function Extra(id: nat, present: bool): multiset<nat> {
    if present then multiset{id} else multiset{}
  }

  lemma {:induction false} TogetherWith(entries: seq<Entry>, e: Entry, refs: seq<GroupRef>)
    requires forall i, j :: 0 <= i < j < |refs| ==> refs[i] != refs[j]
    ensures Together(entries + [e], refs) == Together(entries, refs) + Extra(e.id, RefOf(e) in refs)
    decreases |refs|
  {
    if refs != [] {
      var n := |refs| - 1;
      TogetherWith(entries, e, refs[..n]);
      IdsOfSnoc(entries, e, refs[n]);
      LastRef(refs, RefOf(e));
      AddToOne(Together(entries, refs[..n]), multiset(IdsOf(entries, refs[n])),
               e.id, RefOf(e) in refs[..n], RefOf(e) == refs[n]);
    }
  }

  lemma AddToOne(a: multiset<nat>, b: multiset<nat>, id: nat, inA: bool, inB: bool)
    requires !(inA && inB)
    ensures (a + Extra(id, inA)) + (b + Extra(id, inB)) == (a + b) + Extra(id, inA || inB)
  {
  }

  lemma LastRef(refs: seq<GroupRef>, r: GroupRef)
    requires refs != [] && forall i, j :: 0 <= i < j < |refs| ==> refs[i] != refs[j]
    ensures var n := |refs| - 1;
            if r == refs[n] then r in refs && r !in refs[..n] else r in refs <==> r in refs[..n]
  {
    var n := |refs| - 1;
    assert refs == refs[..n] + [refs[n]];
  }

  lemma IdsOfSnoc(entries: seq<Entry>, e: Entry, ref: GroupRef)
    ensures IdsOf(entries + [e], ref) == IdsOf(entries, ref) + if RefOf(e) == ref then [e.id] else []
    ensures multiset(IdsOf(entries + [e], ref)) ==
              multiset(IdsOf(entries, ref)) + Extra(e.id, RefOf(e) == ref)
  {
    assert (entries + [e])[..|entries|] == entries;
  }

  /** Grouping loses nothing and shows nothing twice: the groups' rows together are the listed rows. */
  lemma {:induction false} GroupsPartition(entries: seq<Entry>)
    ensures Together(entries, Refs(entries)) == multiset(AllIds(entries))
    decreases |entries|
  {
    if entries != [] {
      var n := |entries| - 1;
      var earlier, e := entries[..n], entries[n];
      GroupsPartition(earlier);
      RefsComplete(earlier);
      assert entries == earlier + [e];
      TogetherWith(earlier, e, Refs(earlier));
      if RefOf(e) !in Refs(earlier) {
        IdsOfAbsent(earlier, RefOf(e));
        assert IdsOf(entries, RefOf(e)) == [e.id];
        assert Refs(entries)[..|Refs(earlier)|] == Refs(earlier);
      }
    }
  }

  // ------------------------------------------------------------------ the list query

  function Listed(rows: seq<Notification>, user: string, onlyUnread: bool): seq<Entry> {
    if rows == [] then []
    else
      var n := |rows| - 1;
      InsertNewest(Listed(rows[..n], user, onlyUnread), Entry(n, rows[n]), user, onlyUnread)
  }

  predicate Admitted(e: Entry, user: string, onlyUnread: bool) {
    e.n.user == user && (if onlyUnread then e.n.state == Unread else e.n.state != Archived)
  }

  /** Newest first; rows of other users and archived rows do not enter. */
  function InsertNewest(list: seq<Entry>, e: Entry, user: string, onlyUnread: bool): seq<Entry> {
    if !Admitted(e, user, onlyUnread) then list
    else if list == [] || list[0].n.createdAt <= e.n.createdAt then [e] + list
    else [list[0]] + InsertNewest(list[1..], e, user, onlyUnread)
  }

  predicate NewestFirst(list: seq<Entry>) {
    forall i, j :: 0 <= i < j < |list| ==> list[i].n.createdAt >= list[j].n.createdAt
  }

  lemma {:induction false} InsertNewestFacts(list: seq<Entry>, e: Entry, user: string, onlyUnread: bool)
    requires NewestFirst(list)
    ensures var r := InsertNewest(list, e, user, onlyUnread);
            && NewestFirst(r)
            && forall x :: x in r <==> x in list || (x == e && Admitted(e, user, onlyUnread))
    decreases |list|
  {
    if Admitted(e, user, onlyUnread) && list != [] && e.n.createdAt < list[0].n.createdAt {
      InsertNewestFacts(list[1..], e, user, onlyUnread);
      var r := InsertNewest(list[1..], e, user, onlyUnread);
      assert forall x :: x in list <==> x == list[0] || x in list[1..];
      forall j | 0 <= j < |r|
        ensures list[0].n.createdAt >= r[j].n.createdAt
      {
        assert r[j] in r;
      }
    }
  }

  /** The list holds the user's rows that are not archived (or only the unread), newest first. */
  lemma {:induction false} ListedExactly(rows: seq<Notification>, user: string, onlyUnread: bool)
    ensures NewestFirst(Listed(rows, user, onlyUnread))
    ensures forall x :: x in Listed(rows, user, onlyUnread) <==>
              && x.id < |rows| && x.n == rows[x.id] && x.n.user == user && x.n.state != Archived
              && (onlyUnread ==> x.n.state == Unread)
    decreases |rows|
  {
    if rows != [] {
      var n := |rows| - 1;
      ListedExactly(rows[..n], user, onlyUnread);
      InsertNewestFacts(Listed(rows[..n], user, onlyUnread), Entry(n, rows[n]), user, onlyUnread);
    }
  }

  lemma {:induction false} InsertNewestLength(list: seq<Entry>, e: Entry, user: string, onlyUnread: bool)
    ensures |InsertNewest(list, e, user, onlyUnread)| == |list| + if Admitted(e, user, onlyUnread) then 1 else 0
    decreases |list|
  {
    if list != [] { InsertNewestLength(list[1..], e, user, onlyUnread); }
  }

  function ListedAt(rows: seq<Notification>, user: string, onlyUnread: bool): set<nat> {
    set i: nat | i < |rows| && rows[i].user == user && rows[i].state != Archived && (onlyUnread ==> rows[i].state == Unread)
  }

  lemma ListedAtStep(rows: seq<Notification>, n: nat, user: string, onlyUnread: bool)
    requires |rows| == n + 1
    ensures |ListedAt(rows, user, onlyUnread)| ==
              |ListedAt(rows[..n], user, onlyUnread)| + if Admitted(Entry(n, rows[n]), user, onlyUnread) then 1 else 0
  {
    var earlier := ListedAt(rows[..n], user, onlyUnread);
    assert ListedAt(rows, user, onlyUnread) == earlier + if Admitted(Entry(n, rows[n]), user, onlyUnread) then {n} else {};
    assert n !in earlier;
  }

  /** And it holds each of them once. */
  lemma {:induction false} ListedOnce(rows: seq<Notification>, user: string, onlyUnread: bool)
    ensures |Listed(rows, user, onlyUnread)| == |ListedAt(rows, user, onlyUnread)|
    decreases |rows|
  {
    if rows != [] {
      var n := |rows| - 1;
      ListedOnce(rows[..n], user, onlyUnread);
      InsertNewestLength(Listed(rows[..n], user, onlyUnread), Entry(n, rows[n]), user, onlyUnread);
      ListedAtStep(rows, n, user, onlyUnread);
    }
  }

  function OfCategory(list: seq<Entry>, category: Option<string>): seq<Entry> {
    if list == [] then []
    else
      var n := |list| - 1;
      OfCategory(list[..n], category) +
      if category.None? || category.value == "" || CategoryOf(list[n].n.kind) == category.value then [list[n]] else []
  }

  function CountUnread(list: seq<Entry>): nat {
    if list == [] then 0 else CountUnread(list[..|list| - 1]) + if list[|list| - 1].n.state == Unread then 1 else 0
  }

  method ListNotifications(s: Store, user: string, onlyUnread: bool, category: Option<string>, take: nat := 200)
      returns (groups: seq<Group>, unread: nat)
    ensures var list := Listed(s.rows, user, onlyUnread);
            var shown := if |list| <= take then list else list[..take];
            var entries := OfCategory(shown, category);
            && |groups| == |Refs(entries)|
            && (forall i :: 0 <= i < |groups| ==> Describes(groups[i], entries, Refs(entries)[i]))
            && unread == CountUnread(shown)
  {
    var list := Listed(s.rows, user, onlyUnread);
    var rows := if |list| <= take then list else list[..take];
    groups := GroupEntries(OfCategory(rows, category));
    unread := CountUnread(rows);
  }

  predicate NoneOlder(list: seq<Entry>, at: int) {
    forall i :: 0 <= i < |list| ==> list[i].n.createdAt >= at
  }

  lemma {:induction false} FilterNoneOlder(list: seq<Entry>, category: Option<string>, at: int)
    requires NoneOlder(list, at)
    ensures NoneOlder(OfCategory(list, category), at)
    decreases |list|
  {
    if list != [] { FilterNoneOlder(list[..|list| - 1], category, at); }
  }

  lemma LastIsOldest(list: seq<Entry>, e: Entry)
    requires NewestFirst(list) && NoneOlder(list, e.n.createdAt)
    ensures NewestFirst(list + [e])
  {
  }

  lemma {:induction false} CategoryKeepsOrder(list: seq<Entry>, category: Option<string>)
    requires NewestFirst(list)
    ensures NewestFirst(OfCategory(list, category))
    decreases |list|
  {
    if list != [] {
      var n := |list| - 1;
      CategoryKeepsOrder(list[..n], category);
      FilterNoneOlder(list[..n], category, list[n].n.createdAt);
      LastIsOldest(OfCategory(list[..n], category), list[n]);
    }
  }

  /** The category filter keeps exactly the entries of the category, or all without one, and their order. */
  lemma {:induction false} CategoryFilters(list: seq<Entry>, category: Option<string>)
    ensures category.None? || category.value == "" ==> OfCategory(list, category) == list
    ensures forall e :: e in OfCategory(list, category) <==>
              e in list && (category.None? || category.value == "" || CategoryOf(e.n.kind) == category.value)
    ensures |OfCategory(list, category)| <= |list|
    decreases |list|
  {
    if list != [] {
      var n := |list| - 1;
      CategoryFilters(list[..n], category);
      assert list == list[..n] + [list[n]];
    }
  }

  function UnreadAt(list: seq<Entry>): set<nat> {
    set i: nat | i < |list| && list[i].n.state == Unread
  }

  lemma {:induction false} UnreadCounted(list: seq<Entry>)
    ensures CountUnread(list) == |UnreadAt(list)|
    decreases |list|
  {
    if list != [] {
      var n := |list| - 1;
      UnreadCounted(list[..n]);
      assert UnreadAt(list) == UnreadAt(list[..n]) + if list[n].n.state == Unread then {n} else {};
    }
  }

  /** A link leads to the section of the entity, and there to the record, but for attendance corrections. */
  lemma LinkExactly(entityType: string, id: string)
    requires id != ""
    ensures Href(Some(entityType), None).None? && Href(None, Some(id)).None?
    ensures entityType == "AttendanceCorrection" ==> Href(Some(entityType), Some(id)) == Some("/attendance")
    ensures entityType != "AttendanceCorrection" && Section(entityType).Some? ==>
              Href(Some(entityType), Some(id)) == Some(Section(entityType).value + "/" + id)
    ensures Section(entityType).None? ==> Href(Some(entityType), Some(id)).None?
  {
  }
}
