/**
 * Numbered version histories, as kept for answers, knowledge articles and workflow
 * definitions: one version at most is in force, and one at most is being worked on.
 */
module History {
  import opened Common

  /**
   * Past:    retired (answers, workflows), superseded (knowledge)
   * Current: approved, active, published
   * Draft:   draft
   * Review:  pending (answers), in_review (knowledge)
   */
  datatype Status = Past | Current | Draft | Review

  datatype Version<+T> = Version(number: nat, status: Status, content: T)

  // ------------------------------------------------------------------- queries

  /** The matching version with the highest number, as a row position. */
  function Latest<T>(vs: seq<Version<T>>, want: set<Status>): (r: Option<nat>)
    ensures r.None? ==> forall i :: 0 <= i < |vs| ==> vs[i].status !in want
    ensures r.Some? ==> r.value < |vs| && vs[r.value].status in want
    ensures r.Some? ==> forall i :: 0 <= i < |vs| && vs[i].status in want ==> vs[i].number <= vs[r.value].number
  {
    if vs == [] then None
    else
      var last := |vs| - 1;
      var r := Latest(vs[..last], want);
      if vs[last].status in want && (r.None? || vs[r.value].number <= vs[last].number) then Some(last) else r
  }

  function MaxNumber<T>(vs: seq<Version<T>>): nat {
    if vs == [] then 0 else Max(MaxNumber(vs[..|vs| - 1]), vs[|vs| - 1].number)
  }

  // ------------------------------------------------------------------- updates

  /** A fresh draft, numbered one above the highest. */
  function Opened<T>(vs: seq<Version<T>>, content: T): seq<Version<T>> {
    vs + [Version(MaxNumber(vs) + 1, Draft, content)]
  }

  /** Whatever is in force is retired. */
  function Retired<T>(vs: seq<Version<T>>): seq<Version<T>> {
    seq(|vs|, i requires 0 <= i < |vs| => if vs[i].status == Current then vs[i].(status := Past) else vs[i])
  }

  /** Retire whatever is in force and put version `i` in its place. */
  function Promoted<T>(vs: seq<Version<T>>, i: nat): seq<Version<T>>
    requires i < |vs|
  {
    Retired(vs)[i := vs[i].(status := Current)]
  }

  // ---------------------------------------------------------------- the invariant

  predicate Dense<T>(vs: seq<Version<T>>) {
    forall i :: 0 <= i < |vs| ==> vs[i].number == i + 1
  }

  function Rank(s: Status): nat {
    match s
    case Past => 0
    case Current => 1
    case Draft => 2
    case Review => 2
  }

  /** Past versions first, then at most one in force, then at most one being worked on. */
  predicate Shaped<T>(vs: seq<Version<T>>) {
    forall i, j :: 0 <= i < j < |vs| ==> vs[i].status == Past || Rank(vs[i].status) < Rank(vs[j].status)
  }

  predicate Good<T>(vs: seq<Version<T>>) {
    Dense(vs) && Shaped(vs)
  }

  predicate Reads<T>(vs: seq<Version<T>>, past: nat, current: bool, open: bool) {
    var m := past + if current then 1 else 0;
    && |vs| == m + (if open then 1 else 0)
    && (forall i :: 0 <= i < past ==> vs[i].status == Past)
    && (current ==> vs[past].status == Current)
    && (open ==> vs[m].status in {Draft, Review})
  }

  /** `Shaped` spelled out: the statuses read `Past* Current? (Draft | Review)?`. */
  lemma ShapedIsRegular<T>(vs: seq<Version<T>>)
    ensures Shaped(vs) <==> exists past, current, open :: Reads(vs, past, current, open)
  {
    if Shaped(vs) {
      var n := |vs|;
      var open := n > 0 && vs[n - 1].status in {Draft, Review};
      var m := if open then n - 1 else n;
      var current := m > 0 && vs[m - 1].status == Current;
      var past := if current then m - 1 else m;
      assert Reads(vs, past, current, open);
    }
  }

  lemma {:induction false} DenseMax<T>(vs: seq<Version<T>>)
    requires Dense(vs)
    ensures MaxNumber(vs) == |vs|
    decreases |vs|
  {
    if vs != [] { DenseMax(vs[..|vs| - 1]); }
  }

  lemma OpenedGood<T>(vs: seq<Version<T>>, content: T)
    requires Good(vs) && Latest(vs, {Draft, Review}).None?
    ensures Good(Opened(vs, content))
  {
    DenseMax(vs);
  }

  /** The version being worked on is the last row. */
  lemma OpenIsLast<T>(vs: seq<Version<T>>, i: nat)
    requires Shaped(vs) && i < |vs| && vs[i].status in {Draft, Review}
    ensures i == |vs| - 1
    ensures forall j :: 0 <= j < i ==> vs[j].status in {Past, Current}
  {
    assert Rank(vs[|vs| - 1].status) <= 2;
    forall j | 0 <= j < i
      ensures vs[j].status in {Past, Current}
    {
      assert vs[j].status == Past || Rank(vs[j].status) < Rank(vs[i].status);
    }
  }

  lemma PromotedGood<T>(vs: seq<Version<T>>, i: nat)
    requires Good(vs) && i < |vs| && vs[i].status in {Draft, Review}
    ensures Good(Promoted(vs, i))
    ensures forall j :: 0 <= j < |vs| && j != i ==> Promoted(vs, i)[j].status == Past
  {
    OpenIsLast(vs, i);
  }

  lemma RetiredGood<T>(vs: seq<Version<T>>)
    requires Good(vs)
    ensures Good(Retired(vs))
  {
  }

  // ---------------------------------------------------------------- immutability

  /** History only grows; a version that has left the `loose` statuses never changes its content again. */
  predicate Kept<T(==)>(vs: seq<Version<T>>, vs': seq<Version<T>>, loose: set<Status>) {
    && |vs| <= |vs'|
    && forall i :: 0 <= i < |vs| ==>
         && vs'[i].number == vs[i].number
         && (vs[i].status !in loose ==> vs'[i].content == vs[i].content && vs'[i].status !in loose)
  }

  /** Rewriting one loose version keeps the rest. */
  lemma ReplacedKeeps<T>(vs: seq<Version<T>>, i: nat, vs': seq<Version<T>>, loose: set<Status>)
    requires i < |vs| == |vs'| && vs[i].status in loose && vs'[i].number == vs[i].number && vs' == vs[i := vs'[i]]
    ensures Kept(vs, vs', loose)
  {
    assert forall j :: 0 <= j < |vs| && j != i ==> vs'[j] == vs[j];
  }

  lemma OpenedKeeps<T>(vs: seq<Version<T>>, content: T, loose: set<Status>)
    ensures Kept(vs, Opened(vs, content), loose)
  {
    assert forall j :: 0 <= j < |vs| ==> Opened(vs, content)[j] == vs[j];
  }

  lemma PromotedKeeps<T>(vs: seq<Version<T>>, i: nat, loose: set<Status>)
    requires i < |vs| && loose <= {Draft, Review}
    ensures Kept(vs, Promoted(vs, i), loose)
  {
  }

  lemma RetiredKeeps<T>(vs: seq<Version<T>>, loose: set<Status>)
    requires loose <= {Draft, Review}
    ensures Kept(vs, Retired(vs), loose)
  {
  }

  // ------------------------------------------------------ what an operation leaves alone

  function Last<T>(vs: seq<Version<T>>): Version<T>
    requires vs != []
  {
    vs[|vs| - 1]
  }

  predicate LastIn<T>(vs: seq<Version<T>>, want: set<Status>) {
    vs != [] && Last(vs).status in want
  }

  /** The version being worked on, if there is one, is found. */
  lemma OpenIsFound<T>(vs: seq<Version<T>>, want: set<Status>)
    requires Shaped(vs) && want <= {Draft, Review}
    ensures Latest(vs, want) == if LastIn(vs, want) then Some(|vs| - 1) else None
  {
    var found := Latest(vs, want);
    if found.Some? { OpenIsLast(vs, found.value); }
  }

  /** Only version `v` may differ, and it keeps its number. */
  predicate OnlyVersion<T(==)>(vs: seq<Version<T>>, vs': seq<Version<T>>, v: int) {
    0 <= v < |vs| == |vs'| && (forall w :: 0 <= w < |vs| && w != v ==> vs'[w] == vs[w]) && vs'[v].number == vs[v].number
  }

  /** One more version than before, a draft with the next number. */
  predicate OneMoreDraft<T(==)>(vs: seq<Version<T>>, vs': seq<Version<T>>, content: T) {
    && |vs'| == |vs| + 1 && (forall w :: 0 <= w < |vs| ==> vs'[w] == vs[w])
    && vs'[|vs|].number == |vs| + 1 && vs'[|vs|].status == Draft && vs'[|vs|].content == content
  }

  /** Version `v` is in force; the one in force before is past; no text or number changes. */
  predicate PutInForce<T(==)>(vs: seq<Version<T>>, vs': seq<Version<T>>, v: int) {
    && 0 <= v < |vs| == |vs'|
    && forall w :: 0 <= w < |vs| ==>
         && vs'[w].content == vs[w].content && vs'[w].number == vs[w].number
         && vs'[w].status == if w == v then Current else if vs[w].status == Current then Past else vs[w].status
  }

  /** None is in force any more; nothing else changes. */
  predicate NoneInForce<T(==)>(vs: seq<Version<T>>, vs': seq<Version<T>>) {
    && |vs'| == |vs|
    && forall w :: 0 <= w < |vs| ==>
         && vs'[w].content == vs[w].content && vs'[w].number == vs[w].number
         && vs'[w].status == if vs[w].status == Current then Past else vs[w].status
  }
}
