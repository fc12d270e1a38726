/** The bounded list of recently viewed items of one user (src/domain/personal.ts). */
module Personal {
  import opened Common

  const RECENT_LIMIT := 20

  datatype Key = Key(entityType: string, entityId: string)

  datatype Item = Item(key: Key, caption: Option<string>, href: Option<string>, viewedAt: int)

  datatype View = View(entityType: string, entityId: string, caption: Option<string>, href: Option<string>, at: int)

  function Cut(s: string, n: nat): string {
    if |s| <= n then s else s[..n]
  }

  function CutOption(s: Option<string>, n: nat): Option<string> {
    if s.Some? then Some(Cut(s.value, n)) else None
  }

  /** Views without a type or an id are not tracked. */
  predicate Ignored(v: View) {
    v.entityType == "" || v.entityId == ""
  }

  function ItemOf(v: View): Item {
    Item(Key(Cut(v.entityType, 40), Cut(v.entityId, 60)), CutOption(v.caption, 160), CutOption(v.href, 300), v.at)
  }

  /** What a view stores: type, id, caption and link as given, cut at 40, 60, 160 and 300 characters, and its time. */
  lemma ItemExactly(v: View)
    ensures var item := ItemOf(v);
            && item.key.entityType <= v.entityType && |item.key.entityType| == Min(40, |v.entityType|)
            && item.key.entityId <= v.entityId && |item.key.entityId| == Min(60, |v.entityId|)
            && item.viewedAt == v.at
            && (match v.caption
                case None => item.caption.None?
                case Some(c) => item.caption.Some? && item.caption.value <= c && |item.caption.value| == Min(160, |c|))
            && (match v.href
                case None => item.href.None?
                case Some(h) => item.href.Some? && item.href.value <= h && |item.href.value| == Min(300, |h|))
  {
  }

  // ------------------------------------------------------------- the stored rows

  function Upserted(rows: seq<Item>, item: Item): seq<Item> {
    if rows == [] then [item]
    else if rows[0].key == item.key then [item] + rows[1..]
    else [rows[0]] + Upserted(rows[1..], item)
  }

  function InsertedDesc(sorted: seq<Item>, item: Item): seq<Item> {
    if sorted == [] || sorted[0].viewedAt < item.viewedAt then [item] + sorted
    else [sorted[0]] + InsertedDesc(sorted[1..], item)
  }

  /** The rows as a query ordered by `viewedAt`, newest first, returns them. */
  function NewestFirst(rows: seq<Item>): seq<Item> {
    if rows == [] then [] else InsertedDesc(NewestFirst(rows[1..]), rows[0])
  }

  function Deleted(rows: seq<Item>, excess: seq<Item>): seq<Item> {
    if rows == [] then []
    else (if rows[0] in excess then [] else [rows[0]]) + Deleted(rows[1..], excess)
  }

  function Beyond(rows: seq<Item>, limit: nat): seq<Item> {
    var sorted := NewestFirst(rows);
    if |sorted| <= limit then [] else sorted[limit..]
  }

  function First(s: seq<Item>, n: nat): seq<Item> {
    if |s| <= n then s else s[..n]
  }

  function Tracked(rows: seq<Item>, v: View): seq<Item> {
    if Ignored(v) then rows
    else
      var upserted := Upserted(rows, ItemOf(v));
      Deleted(upserted, Beyond(upserted, RECENT_LIMIT))
  }

  class RecentItems {
    var rows: seq<Item>

    constructor ()
      ensures rows == []
    {
      rows := [];
    }

    method TrackRecent(v: View)
      modifies this
      ensures rows == Tracked(old(rows), v)
    {
      if v.entityType == "" || v.entityId == "" { return; }
      rows := Upserted(rows, ItemOf(v));
      var excess := Beyond(rows, RECENT_LIMIT);
      rows := Deleted(rows, excess);
    }

    /** The newest rows, newest first: no row left out is newer than one shown. */
    method ListRecent(take: nat := RECENT_LIMIT) returns (items: seq<Item>)
      ensures items == First(NewestFirst(rows), take)
      ensures RowsOk(rows) ==> AreNewest(items, rows, take)
    {
      FirstAreNewest(rows, take);
      var sorted := NewestFirst(rows);
      items := if |sorted| <= take then sorted else sorted[..take];
    }
  }

  function Run(rows: seq<Item>, views: seq<View>): seq<Item>
    decreases |views|
  {
    if views == [] then rows else Tracked(Run(rows, views[..|views| - 1]), views[|views| - 1])
  }

  // -------------------------------------------------- the unbounded reference list

  function Without(s: seq<Item>, key: Key): seq<Item> {
    if s == [] then [] else (if s[0].key == key then [] else [s[0]]) + Without(s[1..], key)
  }

  /** The full history, most recently viewed first, each key once. */
  function FullList(views: seq<View>): seq<Item> {
    if views == [] then []
    else
      var v, rest := views[|views| - 1], FullList(views[..|views| - 1]);
      if Ignored(v) then rest else [ItemOf(v)] + Without(rest, ItemOf(v).key)
  }

  predicate Increasing(views: seq<View>) {
    forall i, j :: 0 <= i < j < |views| ==> views[i].at < views[j].at
  }

  predicate StrictDesc(s: seq<Item>) {
    forall i, j :: 0 <= i < j < |s| ==> s[i].viewedAt > s[j].viewedAt
  }

  predicate DistinctKeys(s: seq<Item>) {
    forall i, j :: 0 <= i < j < |s| ==> s[i].key != s[j].key
  }

  predicate Before(s: seq<Item>, at: int) {
    forall x :: x in s ==> x.viewedAt < at
  }

  ghost predicate SameItems(s: seq<Item>, t: seq<Item>) {
    forall x :: x in s <==> x in t
  }

  /** View `i` is the last one of its key. */
  predicate LastView(views: seq<View>, i: nat)
    requires i < |views|
  {
    && !Ignored(views[i])
    && forall j :: i < j < |views| && !Ignored(views[j]) ==> ItemOf(views[j]).key != ItemOf(views[i]).key
  }

  lemma {:induction false} WithoutMembers(s: seq<Item>, key: Key)
    ensures forall x :: x in Without(s, key) <==> x in s && x.key != key
    decreases |s|
  {
    if s != [] {
      WithoutMembers(s[1..], key);
      assert forall x :: x in s <==> x == s[0] || x in s[1..];
    }
  }

  lemma {:induction false} WithoutOrder(s: seq<Item>, key: Key)
    requires StrictDesc(s) && DistinctKeys(s)
    ensures StrictDesc(Without(s, key)) && DistinctKeys(Without(s, key))
    decreases |s|
  {
    if s != [] {
      WithoutOrder(s[1..], key);
      WithoutMembers(s[1..], key);
      var w := Without(s[1..], key);
      forall j | 0 <= j < |w|
        ensures s[0].viewedAt > w[j].viewedAt && s[0].key != w[j].key
      {
        assert w[j] in w;
        assert w[j] in s[1..];
      }
      if s[0].key != key { ConsOrder(s[0], w); }
    }
  }

  lemma ConsOrder(x: Item, w: seq<Item>)
    requires StrictDesc(w) && DistinctKeys(w)
    requires forall j :: 0 <= j < |w| ==> x.viewedAt > w[j].viewedAt && x.key != w[j].key
    ensures StrictDesc([x] + w) && DistinctKeys([x] + w)
  {
  }

  ghost predicate LastViewed(views: seq<View>, x: Item) {
    exists i :: 0 <= i < |views| && LastView(views, i) && x == ItemOf(views[i])
  }

  lemma LastViewedStep(earlier: seq<View>, v: View, x: Item)
    ensures LastViewed(earlier + [v], x) <==>
      if Ignored(v) then LastViewed(earlier, x)
      else x == ItemOf(v) || (LastViewed(earlier, x) && x.key != ItemOf(v).key)
  {
    var views, n := earlier + [v], |earlier|;
    assert views[n] == v && forall i :: 0 <= i < n ==> views[i] == earlier[i];
    assert !Ignored(v) ==> LastView(views, n);
    if LastViewed(earlier, x) && (Ignored(v) || x.key != ItemOf(v).key) {
      var i :| 0 <= i < n && LastView(earlier, i) && x == ItemOf(earlier[i]);
      assert LastView(views, i);
    }
    if i :| 0 <= i < n && LastView(views, i) && x == ItemOf(views[i]) {
      assert LastView(earlier, i);
    }
  }

  /** The reference list, characterised: the last view of every key, newest first. */
  lemma {:induction false} FullListIsLru(views: seq<View>)
    requires Increasing(views)
    ensures StrictDesc(FullList(views)) && DistinctKeys(FullList(views))
    ensures forall x :: x in FullList(views) <==> LastViewed(views, x)
    decreases |views|
  {
    if views != [] {
      var n := |views| - 1;
      var v, earlier := views[n], views[..n];
      assert views == earlier + [v];
      FullListIsLru(earlier);
      forall x { LastViewedStep(earlier, v, x); }
      FullListBefore(earlier, v.at);
      FrontFacts(FullList(earlier), ItemOf(v));
    }
  }

  lemma FullListBefore(views: seq<View>, at: int)
    requires forall x :: x in FullList(views) <==> LastViewed(views, x)
    requires forall i :: 0 <= i < |views| ==> views[i].at < at
    ensures Before(FullList(views), at)
  {
  }

  /** Moving an item that is newer than all to the front. */
  lemma FrontFacts(s: seq<Item>, item: Item)
    requires StrictDesc(s) && DistinctKeys(s) && Before(s, item.viewedAt)
    ensures var front := [item] + Without(s, item.key);
            && StrictDesc(front) && DistinctKeys(front)
            && forall x :: x in front <==> x == item || (x in s && x.key != item.key)
  {
    WithoutMembers(s, item.key);
    WithoutOrder(s, item.key);
    var w := Without(s, item.key);
    forall j | 0 <= j < |w|
      ensures w[j].viewedAt < item.viewedAt && w[j].key != item.key
    {
      assert w[j] in w;
    }
  }

  // ------------------------------------------------------------------ sorting facts

  lemma {:induction false} InsertedDescFacts(sorted: seq<Item>, item: Item)
    requires StrictDesc(sorted) && forall x :: x in sorted ==> x.viewedAt != item.viewedAt
    ensures StrictDesc(InsertedDesc(sorted, item))
    ensures forall x :: x in InsertedDesc(sorted, item) <==> x == item || x in sorted
    decreases |sorted|
  {
    if sorted != [] && item.viewedAt <= sorted[0].viewedAt {
      assert sorted[0] in sorted && forall x :: x in sorted <==> x == sorted[0] || x in sorted[1..];
      InsertedDescFacts(sorted[1..], item);
      var t := InsertedDesc(sorted[1..], item);
      forall j | 0 <= j < |t|
        ensures sorted[0].viewedAt > t[j].viewedAt
      {
        assert t[j] in t;
      }
    }
  }

  predicate DistinctTimes(rows: seq<Item>) {
    forall i, j :: 0 <= i < j < |rows| ==> rows[i].viewedAt != rows[j].viewedAt
  }

  lemma {:induction false} NewestFirstFacts(rows: seq<Item>)
    requires DistinctTimes(rows)
    ensures StrictDesc(NewestFirst(rows)) && SameItems(NewestFirst(rows), rows)
    decreases |rows|
  {
    if rows != [] {
      NewestFirstFacts(rows[1..]);
      assert forall x :: x in rows <==> x == rows[0] || x in rows[1..];
      InsertedDescFacts(NewestFirst(rows[1..]), rows[0]);
    }
  }

  lemma SomeMember(t: seq<Item>)
    ensures t != [] ==> exists x :: x in t
  {
    if t != [] { assert t[0] in t; }
  }

  /** A strictly descending list is determined by its members. */
  lemma {:induction false} SortedIsUnique(s: seq<Item>, t: seq<Item>)
    requires StrictDesc(s) && StrictDesc(t) && SameItems(s, t)
    ensures s == t
    decreases |s|
  {
    if s == [] {
      SomeMember(t);
    } else {
      assert s[0] in t;
      assert t[0] in s;
      assert s[0] == t[0];
      forall x
        ensures x in s[1..] <==> x in t[1..]
      {
        assert x in s[1..] <==> x in s && x != s[0];
        assert x in t[1..] <==> x in t && x != t[0];
      }
      SortedIsUnique(s[1..], t[1..]);
    }
  }

  lemma {:induction false} UpsertedMembers(rows: seq<Item>, item: Item)
    requires DistinctKeys(rows)
    ensures forall x :: x in Upserted(rows, item) <==> x == item || (x in rows && x.key != item.key)
    decreases |rows|
  {
    if rows != [] {
      assert forall x :: x in rows <==> x == rows[0] || x in rows[1..];
      if rows[0].key == item.key {
        forall x | x in rows[1..] ensures x.key != item.key { }
      } else {
        UpsertedMembers(rows[1..], item);
      }
    }
  }

  lemma RowsCons(x: Item, t: seq<Item>)
    requires RowsOk(t) && forall j :: 0 <= j < |t| ==> x.key != t[j].key && x.viewedAt != t[j].viewedAt
    ensures RowsOk([x] + t)
  {
  }

  lemma HeadReplaced(rows: seq<Item>, item: Item)
    requires rows != [] && RowsOk(rows) && Before(rows, item.viewedAt) && rows[0].key == item.key
    ensures RowsOk([item] + rows[1..])
  {
    forall j | 0 <= j < |rows[1..]|
      ensures item.key != rows[1..][j].key && item.viewedAt != rows[1..][j].viewedAt
    {
      assert rows[j + 1] in rows;
    }
    RowsCons(item, rows[1..]);
  }

  lemma {:induction false} UpsertedDistinct(rows: seq<Item>, item: Item)
    requires RowsOk(rows) && Before(rows, item.viewedAt)
    ensures RowsOk(Upserted(rows, item))
    decreases |rows|
  {
    if rows != [] {
      if rows[0].key == item.key {
        HeadReplaced(rows, item);
      } else {
        assert rows[0] in rows;
        assert forall x :: x in rows[1..] ==> x in rows;
        UpsertedDistinct(rows[1..], item);
        UpsertedMembers(rows[1..], item);
        var t := Upserted(rows[1..], item);
        forall j | 0 <= j < |t|
          ensures rows[0].key != t[j].key && rows[0].viewedAt != t[j].viewedAt
        {
          assert t[j] in t;
        }
        RowsCons(rows[0], t);
      }
    }
  }

  lemma {:induction false} DeletedMembers(rows: seq<Item>, excess: seq<Item>)
    ensures forall x :: x in Deleted(rows, excess) <==> x in rows && x !in excess
    decreases |rows|
  {
    if rows != [] {
      DeletedMembers(rows[1..], excess);
      assert forall x :: x in rows <==> x == rows[0] || x in rows[1..];
    }
  }

  lemma {:induction false} DeletedDistinct(rows: seq<Item>, excess: seq<Item>)
    requires RowsOk(rows)
    ensures RowsOk(Deleted(rows, excess))
    decreases |rows|
  {
    if rows != [] {
      DeletedDistinct(rows[1..], excess);
      DeletedMembers(rows[1..], excess);
      var t := Deleted(rows[1..], excess);
      forall j | 0 <= j < |t|
        ensures t[j].key != rows[0].key && t[j].viewedAt != rows[0].viewedAt
      {
        assert t[j] in t;
        assert t[j] in rows[1..];
      }
    }
  }

  /** `items` are the `take` newest of `rows`, newest first. */
  predicate AreNewest(items: seq<Item>, rows: seq<Item>, take: nat) {
    && StrictDesc(items) && |items| == Min(take, |rows|)
    && (forall x :: x in items ==> x in rows)
    && (forall x, y :: x in rows && x !in items && y in items ==> x.viewedAt < y.viewedAt)
  }

  lemma {:induction false} InsertedDescLength(sorted: seq<Item>, item: Item)
    ensures |InsertedDesc(sorted, item)| == |sorted| + 1
    decreases |sorted|
  {
    if sorted != [] { InsertedDescLength(sorted[1..], item); }
  }

  lemma {:induction false} NewestFirstLength(rows: seq<Item>)
    ensures |NewestFirst(rows)| == |rows|
    decreases |rows|
  {
    if rows != [] {
      NewestFirstLength(rows[1..]);
      InsertedDescLength(NewestFirst(rows[1..]), rows[0]);
    }
  }

  lemma FirstAreNewest(rows: seq<Item>, take: nat)
    ensures RowsOk(rows) ==> AreNewest(First(NewestFirst(rows), take), rows, take)
  {
    if RowsOk(rows) {
      var sorted := NewestFirst(rows);
      NewestFirstFacts(rows);
      NewestFirstLength(rows);
      FirstMembers(sorted, take);
      forall x, y | x in rows && x !in First(sorted, take) && y in First(sorted, take)
        ensures x.viewedAt < y.viewedAt
      {
        LaterIsOlder(sorted, take, x, y);
      }
    }
  }

  lemma LaterIsOlder(sorted: seq<Item>, n: nat, x: Item, y: Item)
    requires StrictDesc(sorted) && x in sorted && x !in First(sorted, n) && y in First(sorted, n)
    ensures x.viewedAt < y.viewedAt
  {
    assert |sorted| > n && sorted == sorted[..n] + sorted[n..];
    assert x in sorted[n..];
  }

  // -------------------------------------------------------------- pruning each step

  predicate RowsOk(rows: seq<Item>) {
    DistinctKeys(rows) && DistinctTimes(rows)
  }

  /** A view without a type or an id leaves the rows alone. */
  lemma NamelessIsIgnored(rows: seq<Item>, v: View)
    ensures v.entityType == "" || v.entityId == "" ==> Tracked(rows, v) == rows
  {
  }

  /** A tracked view is always among the rows. */
  lemma ViewIsTracked(rows: seq<Item>, v: View)
    requires RowsOk(rows) && Before(rows, v.at) && v.entityType != "" && v.entityId != ""
    ensures ItemOf(v) in Tracked(rows, v) && |Tracked(rows, v)| <= 20
  {
    TrackedSorted(rows, v);
    var after := Tracked(rows, v);
    NewestFirstFacts(after);
    NewestFirstLength(after);
    assert NewestFirst(after)[0] == ItemOf(v);
  }

  /** One tracked view, on the sorted rows: to the front, its older entry gone, the tail cut off. */
  lemma TrackedSorted(rows: seq<Item>, v: View)
    requires RowsOk(rows) && Before(rows, v.at) && !Ignored(v)
    ensures RowsOk(Tracked(rows, v))
    ensures NewestFirst(Tracked(rows, v)) == First([ItemOf(v)] + Without(NewestFirst(rows), ItemOf(v).key), RECENT_LIMIT)
  {
    var item := ItemOf(v);
    var up := Upserted(rows, item);
    var front := [item] + Without(NewestFirst(rows), item.key);
    NewestFirstFacts(rows);
    NewestFirstKeys(rows);
    FrontFacts(NewestFirst(rows), item);
    UpsertedMembers(rows, item);
    UpsertedDistinct(rows, item);
    NewestFirstFacts(up);
    SortedIsUnique(NewestFirst(up), front);
    PruneSorted(up, RECENT_LIMIT);
  }

  lemma PruneSorted(rows: seq<Item>, n: nat)
    requires RowsOk(rows)
    ensures RowsOk(Deleted(rows, Beyond(rows, n)))
    ensures NewestFirst(Deleted(rows, Beyond(rows, n))) == First(NewestFirst(rows), n)
  {
    var kept := Deleted(rows, Beyond(rows, n));
    NewestFirstFacts(rows);
    DeletedMembers(rows, Beyond(rows, n));
    DeletedDistinct(rows, Beyond(rows, n));
    NewestFirstFacts(kept);
    FirstMembers(NewestFirst(rows), n);
    SortedIsUnique(NewestFirst(kept), First(NewestFirst(rows), n));
  }

  lemma {:induction false} NewestFirstKeys(rows: seq<Item>)
    requires RowsOk(rows)
    ensures DistinctKeys(NewestFirst(rows))
  {
    NewestFirstFacts(rows);
    var s := NewestFirst(rows);
    forall i, j | 0 <= i < j < |s|
      ensures s[i].key != s[j].key
    {
      assert s[i] in s && s[j] in s && s[i].viewedAt > s[j].viewedAt;
      assert s[i] in rows && s[j] in rows;
    }
  }

  lemma FirstMembers(s: seq<Item>, n: nat)
    requires StrictDesc(s)
    ensures StrictDesc(First(s, n))
    ensures forall x :: x in First(s, n) <==> x in s && (|s| <= n || x !in s[n..])
  {
  }

  lemma {:induction false} WithoutConcat(s: seq<Item>, t: seq<Item>, key: Key)
    ensures Without(s + t, key) == Without(s, key) + Without(t, key)
    decreases |s|
  {
    if s == [] {
      assert s + t == t;
    } else {
      assert (s + t)[1..] == s[1..] + t;
      WithoutConcat(s[1..], t, key);
    }
  }

  lemma {:induction false} WithoutLength(s: seq<Item>, key: Key)
    requires DistinctKeys(s)
    ensures |s| - 1 <= |Without(s, key)| <= |s|
    ensures (forall x :: x in s ==> x.key != key) ==> |Without(s, key)| == |s|
    decreases |s|
  {
    if s != [] {
      assert forall x :: x in s <==> x == s[0] || x in s[1..];
      WithoutLength(s[1..], key);
      if s[0].key == key {
        forall x | x in s[1..] ensures x.key != key { }
      }
    }
  }

  /** Cutting before moving a key to the front, or only after, leaves the same first entries. */
  lemma CutCommutes(full: seq<Item>, item: Item, n: nat)
    requires DistinctKeys(full) && n > 0
    ensures First([item] + Without(First(full, n), item.key), n) == First([item] + Without(full, item.key), n)
  {
    if |full| > n {
      assert full == full[..n] + full[n..];
      WithoutConcat(full[..n], full[n..], item.key);
      WithoutLength(full[..n], item.key);
      var kept := Without(full[..n], item.key);
      assert [item] + Without(full, item.key) == ([item] + kept) + Without(full[n..], item.key);
    }
  }

  /**
   * After any sequence of views at increasing times, the pruned store, read newest first, is
   * exactly the 20 most recently viewed keys of the full history: pruning after every view
   * equals cutting the unbounded list once.
   */
  lemma {:induction false} PruningIsExactLru(views: seq<View>)
    requires Increasing(views)
    ensures RowsOk(Run([], views))
    ensures NewestFirst(Run([], views)) == First(FullList(views), RECENT_LIMIT)
    decreases |views|
  {
    if views != [] {
      var n := |views| - 1;
      var earlier, v := views[..n], views[n];
      PruningIsExactLru(earlier);
      var rows := Run([], earlier);
      if !Ignored(v) {
        FullListIsLru(earlier);
        NewestFirstFacts(rows);
        FullListBefore(earlier, v.at);
        FirstMembers(FullList(earlier), RECENT_LIMIT);
        assert Before(rows, v.at);
        TrackedSorted(rows, v);
        CutCommutes(FullList(earlier), ItemOf(v), RECENT_LIMIT);
      }
    }
  }
}
