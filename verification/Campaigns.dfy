/** Derived campaign spend and its backfill (src/domain/campaigns.ts). */
module Campaigns {
  import opened Common

  /** `campaign` is the position of the owning campaign. */
  datatype Metric = Metric(id: nat, campaign: nat, name: string, value: real, isTarget: bool, migrated: bool)

  datatype Campaign = Campaign(actualSpend: Option<real>, archived: bool)

  datatype Store = Store(campaigns: seq<Campaign>, metrics: seq<Metric>, nextId: nat)

  datatype Error = NotFound | Forbidden

  predicate IsSpend(m: Metric, c: nat) {
    m.campaign == c && m.name == "spend" && !m.isTarget
  }

  function SpendOf(metrics: seq<Metric>, c: nat): real {
    if metrics == [] then 0.0
    else SpendOf(metrics[..|metrics| - 1], c) +
         if IsSpend(metrics[|metrics| - 1], c) then metrics[|metrics| - 1].value else 0.0
  }

  predicate HasSpend(metrics: seq<Metric>, c: nat) {
    metrics != [] && (IsSpend(metrics[|metrics| - 1], c) || HasSpend(metrics[..|metrics| - 1], c))
  }

  lemma {:induction false} HasSpendExactly(metrics: seq<Metric>, c: nat)
    ensures HasSpend(metrics, c) <==>
              exists i :: 0 <= i < |metrics| && metrics[i].campaign == c && metrics[i].name == "spend" && !metrics[i].isTarget
    decreases |metrics|
  {
    if metrics != [] {
      var n := |metrics| - 1;
      HasSpendExactly(metrics[..n], c);
      if i :| 0 <= i < |metrics| && metrics[i].campaign == c && metrics[i].name == "spend" && !metrics[i].isTarget {
        if i < n { assert metrics[..n][i] == metrics[i]; }
      }
      if i :| 0 <= i < n && metrics[..n][i].campaign == c && metrics[..n][i].name == "spend" && !metrics[..n][i].isTarget {
        assert metrics[i] == metrics[..n][i];
      }
    }
  }

  function Find(metrics: seq<Metric>, id: nat): (r: Option<nat>)
    ensures r.Some? ==> r.value < |metrics| && metrics[r.value].id == id
    ensures r.None? ==> forall i :: 0 <= i < |metrics| ==> metrics[i].id != id
  {
    if metrics == [] then None
    else if metrics[|metrics| - 1].id == id then Some(|metrics| - 1)
    else Find(metrics[..|metrics| - 1], id)
  }

  // ------------------------------------------------------- the service functions

  function Recomputed(s: Store, c: nat): Store
    requires c < |s.campaigns|
  {
    s.(campaigns := s.campaigns[c := s.campaigns[c].(actualSpend := Some(SpendOf(s.metrics, c)))])
  }

  function Refusal(s: Store, c: nat, allowed: bool): Option<Error> {
    if c >= |s.campaigns| || s.campaigns[c].archived then Some(NotFound) else if !allowed then Some(Forbidden) else None
  }

  function WithMetric(s: Store, c: nat, name: string, value: real, isTarget: bool, migrated: bool): Store {
    s.(metrics := s.metrics + [Metric(s.nextId, c, name, value, isTarget, migrated)], nextId := s.nextId + 1)
  }

  function MetricAdded(s: Store, c: nat, allowed: bool, name: string, value: real, isTarget: bool): Result<Store, Error> {
    if Refusal(s, c, allowed).Some? then Err(Refusal(s, c, allowed).value)
    else
      var t := WithMetric(s, c, name, value, isTarget, false);
      Ok(if name == "spend" && !isTarget then Recomputed(t, c) else t)
  }

  function MetricDeleted(s: Store, c: nat, allowed: bool, id: nat): Result<Store, Error> {
    if Refusal(s, c, allowed).Some? then Err(Refusal(s, c, allowed).value)
    else match Find(s.metrics, id)
      case None => Err(NotFound)
      case Some(i) =>
        var m := s.metrics[i];
        if m.campaign != c then Err(NotFound)
        else
          var t := s.(metrics := s.metrics[..i] + s.metrics[i + 1..]);
          Ok(if m.name == "spend" && !m.isTarget then Recomputed(t, c) else t)
  }

  /** What the backfill does to one campaign. */
  function BackfilledOne(s: Store, c: nat): Store
    requires c < |s.campaigns|
  {
    var legacy := s.campaigns[c].actualSpend.GetOr(0.0);
    if HasSpend(s.metrics, c) then Recomputed(s, c)
    else if legacy > 0.0 then Recomputed(WithMetric(s, c, "spend", legacy, false, true), c)
    else s
  }

  function Backfilled(s: Store, n: nat): (t: Store)
    requires n <= |s.campaigns|
    ensures |t.campaigns| == |s.campaigns|
  {
    if n == 0 then s else BackfilledOne(Backfilled(s, n - 1), n - 1)
  }

  /** Campaigns whose legacy figure becomes a metric. */
  function MigratingAt(s: Store): nat -> bool {
    (c: nat) => c < |s.campaigns| && !HasSpend(s.metrics, c) && s.campaigns[c].actualSpend.GetOr(0.0) > 0.0
  }

  function SpendingAt(s: Store): nat -> bool {
    (c: nat) => c < |s.campaigns| && HasSpend(s.metrics, c)
  }

  class CampaignStore {
    var campaigns: seq<Campaign>
    var metrics: seq<Metric>
    var nextId: nat

    function Value(): Store
      reads this
    {
      Store(campaigns, metrics, nextId)
    }

    constructor (s: Store)
      ensures Value() == s
    {
      campaigns, metrics, nextId := s.campaigns, s.metrics, s.nextId;
    }

    method RecomputeSpend(c: nat) returns (total: real)
      requires c < |campaigns|
      modifies this`campaigns
      ensures Value() == Recomputed(old(Value()), c) && total == SpendOf(metrics, c)
    {
      total := SpendOf(metrics, c);
      campaigns := campaigns[c := campaigns[c].(actualSpend := Some(total))];
    }

    method CreateMetric(c: nat, name: string, value: real, isTarget: bool, migrated: bool)
      modifies this`metrics, this`nextId
      ensures Value() == WithMetric(old(Value()), c, name, value, isTarget, migrated)
    {
      metrics := metrics + [Metric(nextId, c, name, value, isTarget, migrated)];
      nextId := nextId + 1;
    }

    method AddMetric(c: nat, allowed: bool, name: string, value: real, isTarget: bool) returns (error: Option<Error>)
      modifies this
      ensures Value() == After(old(Value()), MetricAdded(old(Value()), c, allowed, name, value, isTarget))
      ensures error == ErrorOf(MetricAdded(old(Value()), c, allowed, name, value, isTarget))
    {
      if c >= |campaigns| || campaigns[c].archived { return Some(NotFound); }
      if !allowed { return Some(Forbidden); }
      CreateMetric(c, name, value, isTarget, false);
      if name == "spend" && !isTarget { var _ := RecomputeSpend(c); }
      return None;
    }

    method DeleteMetric(c: nat, allowed: bool, id: nat) returns (error: Option<Error>)
      modifies this
      ensures Value() == After(old(Value()), MetricDeleted(old(Value()), c, allowed, id))
      ensures error == ErrorOf(MetricDeleted(old(Value()), c, allowed, id))
    {
      if c >= |campaigns| || campaigns[c].archived { return Some(NotFound); }
      if !allowed { return Some(Forbidden); }
      var found := Find(metrics, id);
      if found.None? || metrics[found.value].campaign != c { return Some(NotFound); }
      var m := metrics[found.value];
      metrics := metrics[..found.value] + metrics[found.value + 1..];
      if m.name == "spend" && !m.isTarget { var _ := RecomputeSpend(c); }
      return None;
    }

    method BackfillCampaign(c: nat) returns (recomputed: bool, migrated: bool)
      requires c < |campaigns|
      modifies this
      ensures Value() == BackfilledOne(old(Value()), c)
      ensures recomputed == HasSpend(old(metrics), c)
      ensures migrated == (!HasSpend(old(metrics), c) && old(campaigns)[c].actualSpend.GetOr(0.0) > 0.0)
    {
      if HasSpend(metrics, c) {
        var _ := RecomputeSpend(c);
        return true, false;
      }
      var legacy := campaigns[c].actualSpend.GetOr(0.0);
      if legacy > 0.0 {
        CreateMetric(c, "spend", legacy, false, true);
        var _ := RecomputeSpend(c);
        return false, true;
      }
      return false, false;
    }

    method BackfillSpend() returns (recomputed: nat, migrated: nat)
      modifies this
      ensures Value() == Backfilled(old(Value()), |old(campaigns)|)
      ensures migrated == CountIf(|old(campaigns)|, MigratingAt(old(Value())))
      ensures recomputed == CountIf(|old(campaigns)|, SpendingAt(old(Value())))
    {
      recomputed, migrated := 0, 0;
      ghost var was := Value();
      for c := 0 to |campaigns|
        invariant Value() == Backfilled(was, c)
        invariant migrated == CountIf(c, MigratingAt(was)) && recomputed == CountIf(c, SpendingAt(was))
      {
        UntouchedYet(was, c, c);
        var spent, moved := BackfillCampaign(c);
        if spent { recomputed := recomputed + 1; }
        if moved { migrated := migrated + 1; }
      }
    }
  }

  // ------------------------------------------------------------------- the invariant

  function Shown(s: Store, c: nat): real
    requires c < |s.campaigns|
  {
    s.campaigns[c].actualSpend.GetOr(0.0)
  }

  /** The figure shown (null as 0) is the sum of the campaign's non-target spend metrics. */
  predicate Agrees(s: Store, c: nat)
    requires c < |s.campaigns|
  {
    Shown(s, c) == SpendOf(s.metrics, c)
  }

  predicate DistinctIds(s: Store) {
    && (forall i :: 0 <= i < |s.metrics| ==> s.metrics[i].id < s.nextId)
    && (forall i, j :: 0 <= i < j < |s.metrics| ==> s.metrics[i].id != s.metrics[j].id)
  }

  predicate Inv(s: Store) {
    DistinctIds(s) && forall c :: 0 <= c < |s.campaigns| ==> Agrees(s, c)
  }

  lemma {:induction false} SpendConcat(a: seq<Metric>, b: seq<Metric>, c: nat)
    ensures SpendOf(a + b, c) == SpendOf(a, c) + SpendOf(b, c)
    decreases |b|
  {
    if b == [] {
      assert a + b == a;
    } else {
      assert (a + b)[..|a + b| - 1] == a + b[..|b| - 1];
      SpendConcat(a, b[..|b| - 1], c);
    }
  }

  lemma SpendOfOne(m: Metric, c: nat)
    ensures SpendOf([m], c) == if IsSpend(m, c) then m.value else 0.0
  {
    assert [m][..0] == [];
  }

  /** Taking one metric out takes its value out of its own campaign's sum and no other. */
  lemma SpendWithout(metrics: seq<Metric>, i: nat, c: nat)
    requires i < |metrics|
    ensures SpendOf(metrics[..i] + metrics[i + 1..], c) ==
              SpendOf(metrics, c) - if IsSpend(metrics[i], c) then metrics[i].value else 0.0
  {
    SpendConcat(metrics[..i], metrics[i + 1..], c);
    SpendConcat(metrics[..i] + [metrics[i]], metrics[i + 1..], c);
    SpendConcat(metrics[..i], [metrics[i]], c);
    SpendOfOne(metrics[i], c);
    assert metrics == metrics[..i] + [metrics[i]] + metrics[i + 1..];
  }

  lemma SpendWith(s: Store, c: nat, name: string, value: real, isTarget: bool, migrated: bool, k: nat)
    ensures SpendOf(WithMetric(s, c, name, value, isTarget, migrated).metrics, k) ==
              SpendOf(s.metrics, k) + if c == k && name == "spend" && !isTarget then value else 0.0
  {
    var m := Metric(s.nextId, c, name, value, isTarget, migrated);
    SpendConcat(s.metrics, [m], k);
    SpendOfOne(m, k);
  }

  // ------------------------------------------------------------------------- runs

  datatype Op =
    | Add(c: nat, allowed: bool, name: string, value: real, isTarget: bool)
    | Delete(c: nat, allowed: bool, id: nat)

  function Perform(s: Store, op: Op): Result<Store, Error> {
    match op
    case Add(c, allowed, name, value, isTarget) => MetricAdded(s, c, allowed, name, value, isTarget)
    case Delete(c, allowed, id) => MetricDeleted(s, c, allowed, id)
  }

  function Run(s: Store, ops: seq<Op>): Store
    decreases |ops|
  {
    if ops == [] then s else Run(After(s, Perform(s, ops[0])), ops[1..])
  }

  lemma AddKeepsInv(s: Store, c: nat, allowed: bool, name: string, value: real, isTarget: bool)
    requires Inv(s) && MetricAdded(s, c, allowed, name, value, isTarget).Ok?
    ensures Inv(MetricAdded(s, c, allowed, name, value, isTarget).value)
  {
    var t := MetricAdded(s, c, allowed, name, value, isTarget).value;
    forall k | 0 <= k < |t.campaigns|
      ensures Agrees(t, k)
    {
      assert Agrees(s, k);
      SpendWith(s, c, name, value, isTarget, false, k);
    }
  }

  lemma RemovalKeepsDistinct(s: Store, i: nat)
    requires DistinctIds(s) && i < |s.metrics|
    ensures DistinctIds(s.(metrics := s.metrics[..i] + s.metrics[i + 1..]))
  {
    var left := s.metrics[..i] + s.metrics[i + 1..];
    forall a | 0 <= a < |left|
      ensures left[a] == s.metrics[if a < i then a else a + 1]
    {
    }
  }

  lemma RemovalAgrees(s: Store, t: Store, c: nat, i: nat, k: nat)
    requires i < |s.metrics| && s.metrics[i].campaign == c && k < |s.campaigns| && c < |s.campaigns| && Agrees(s, k)
    requires var u := s.(metrics := s.metrics[..i] + s.metrics[i + 1..]);
             t == if IsSpend(s.metrics[i], c) then Recomputed(u, c) else u
    ensures Agrees(t, k)
  {
    SpendWithout(s.metrics, i, k);
  }

  lemma DeleteKeepsInv(s: Store, c: nat, allowed: bool, id: nat)
    requires Inv(s) && MetricDeleted(s, c, allowed, id).Ok?
    ensures Inv(MetricDeleted(s, c, allowed, id).value)
  {
    var t := MetricDeleted(s, c, allowed, id).value;
    var i := Find(s.metrics, id).value;
    RemovalKeepsDistinct(s, i);
    forall k | 0 <= k < |t.campaigns|
      ensures Agrees(t, k)
    {
      RemovalAgrees(s, t, c, i, k);
    }
  }

  /** Over every run of metric adds and deletes the figure shown is the derived one. */
  lemma {:induction false} SpendStaysDerived(s: Store, ops: seq<Op>)
    requires Inv(s)
    ensures Inv(Run(s, ops))
    decreases |ops|
  {
    if ops != [] {
      if Perform(s, ops[0]).Ok? {
        match ops[0]
        case Add(c, allowed, name, value, isTarget) => AddKeepsInv(s, c, allowed, name, value, isTarget);
        case Delete(c, allowed, id) => DeleteKeepsInv(s, c, allowed, id);
      }
      SpendStaysDerived(After(s, Perform(s, ops[0])), ops[1..]);
    }
  }

  // --------------------------------------------------------------------- the backfill

  lemma HasSpendWith(s: Store, c: nat, name: string, value: real, k: nat)
    ensures HasSpend(WithMetric(s, c, name, value, false, true).metrics, k)
            <==> HasSpend(s.metrics, k) || (c == k && name == "spend")
  {
    var t := WithMetric(s, c, name, value, false, true);
    assert t.metrics[..|s.metrics|] == s.metrics;
  }

  lemma {:induction false} NoSpendIsZero(metrics: seq<Metric>, c: nat)
    requires !HasSpend(metrics, c)
    ensures SpendOf(metrics, c) == 0.0
    decreases |metrics|
  {
    if metrics != [] { NoSpendIsZero(metrics[..|metrics| - 1], c); }
  }

  /** Handling campaign `c` leaves every other campaign, its metrics and its sum alone. */
  lemma OneAtATime(s: Store, c: nat, k: nat)
    requires c < |s.campaigns| && k < |s.campaigns| && c != k
    ensures var t := BackfilledOne(s, c);
            && t.campaigns[k] == s.campaigns[k] && SpendOf(t.metrics, k) == SpendOf(s.metrics, k)
            && (HasSpend(t.metrics, k) <==> HasSpend(s.metrics, k))
  {
    var legacy := s.campaigns[c].actualSpend.GetOr(0.0);
    SpendWith(s, c, "spend", legacy, false, true, k);
    HasSpendWith(s, c, "spend", legacy, k);
  }

  lemma {:induction false} UntouchedYet(s: Store, n: nat, k: nat)
    requires n <= k < |s.campaigns|
    ensures var t := Backfilled(s, n);
            && t.campaigns[k] == s.campaigns[k] && SpendOf(t.metrics, k) == SpendOf(s.metrics, k)
            && (HasSpend(t.metrics, k) <==> HasSpend(s.metrics, k))
    decreases n
  {
    if n > 0 {
      UntouchedYet(s, n - 1, k);
      OneAtATime(Backfilled(s, n - 1), n - 1, k);
    }
  }

  /** The state of campaign `k` once the backfill has passed it. */
  predicate Settled(s: Store, t: Store, k: nat)
    requires k < |s.campaigns| == |t.campaigns|
  {
    && (HasSpend(t.metrics, k) <==> HasSpend(s.metrics, k) || Shown(s, k) > 0.0)
    && (HasSpend(t.metrics, k) ==> t.campaigns[k].actualSpend == Some(SpendOf(t.metrics, k)))
    && (!HasSpend(s.metrics, k) ==> Shown(t, k) == Shown(s, k))
    && (!HasSpend(t.metrics, k) ==> t.campaigns[k] == s.campaigns[k])
  }

  lemma {:induction false} BackfillSettles(s: Store, n: nat, k: nat)
    requires k < n <= |s.campaigns|
    ensures Settled(s, Backfilled(s, n), k)
    decreases n
  {
    var c := n - 1;
    var u := Backfilled(s, c);
    if k < c {
      BackfillSettles(s, c, k);
      OneAtATime(u, c, k);
    } else {
      UntouchedYet(s, c, c);
      var legacy := u.campaigns[c].actualSpend.GetOr(0.0);
      SpendWith(u, c, "spend", legacy, false, true, c);
      HasSpendWith(u, c, "spend", legacy, c);
      if !HasSpend(u.metrics, c) { NoSpendIsZero(u.metrics, c); }
    }
  }

  /**
   * The backfill makes the figure of a campaign the derived one exactly when the campaign had
   * spend metrics or a legacy figure that is not negative; and it never changes the figure of
   * a campaign without spend metrics.
   */
  lemma BackfillEstablishes(s: Store, c: nat)
    requires c < |s.campaigns|
    ensures var t := Backfilled(s, |s.campaigns|);
            && (Agrees(t, c) <==> HasSpend(s.metrics, c) || Shown(s, c) >= 0.0)
            && (!HasSpend(s.metrics, c) ==> Shown(t, c) == Shown(s, c))
  {
    var t := Backfilled(s, |s.campaigns|);
    BackfillSettles(s, |s.campaigns|, c);
    if !HasSpend(t.metrics, c) { NoSpendIsZero(t.metrics, c); }
  }

  /** Figures are derived where there are spend metrics, and not positive elsewhere. */
  predicate SettledAt(t: Store, k: nat) {
    k < |t.campaigns| &&
    if HasSpend(t.metrics, k) then t.campaigns[k].actualSpend == Some(SpendOf(t.metrics, k))
    else t.campaigns[k].actualSpend.GetOr(0.0) <= 0.0
  }

  lemma SettledOnce(t: Store, k: nat)
    requires SettledAt(t, k)
    ensures BackfilledOne(t, k) == t && !MigratingAt(t)(k)
  {
  }

  lemma FixedStep(t: Store, n: nat)
    requires 0 < n <= |t.campaigns| && Backfilled(t, n - 1) == t && BackfilledOne(t, n - 1) == t
    ensures Backfilled(t, n) == t
  {
  }

  lemma {:induction false} SettledIsFixed(t: Store, n: nat)
    requires n <= |t.campaigns| && forall k :: 0 <= k < |t.campaigns| ==> SettledAt(t, k)
    ensures Backfilled(t, n) == t
    decreases n
  {
    if n > 0 {
      SettledIsFixed(t, n - 1);
      SettledOnce(t, n - 1);
      FixedStep(t, n);
    }
  }

  lemma {:induction false} SettledMigratesNone(t: Store, n: nat)
    requires n <= |t.campaigns| && forall k :: 0 <= k < |t.campaigns| ==> SettledAt(t, k)
    ensures CountIf(n, MigratingAt(t)) == 0
    decreases n
  {
    if n > 0 {
      SettledMigratesNone(t, n - 1);
      SettledOnce(t, n - 1);
    }
  }

  /** A second backfill migrates nothing and changes nothing. */
  lemma SecondBackfillIsIdle(s: Store)
    ensures var t := Backfilled(s, |s.campaigns|);
            Backfilled(t, |t.campaigns|) == t && CountIf(|t.campaigns|, MigratingAt(t)) == 0
  {
    var t := Backfilled(s, |s.campaigns|);
    forall k | 0 <= k < |t.campaigns|
      ensures SettledAt(t, k)
    {
      BackfillSettles(s, |s.campaigns|, k);
    }
    SettledIsFixed(t, |t.campaigns|);
    SettledMigratesNone(t, |t.campaigns|);
  }

  /** A negative legacy figure without spend metrics stays as it is, and stays wrong. */
  lemma NegativeLegacyStays(figure: real)
    requires figure < 0.0
    ensures var s := Store([Campaign(Some(figure), false)], [], 0);
            Backfilled(s, 1) == s && !Agrees(s, 0)
  {
    var s := Store([Campaign(Some(figure), false)], [], 0);
    assert !HasSpend(s.metrics, 0);
    assert Backfilled(s, 1) == BackfilledOne(Backfilled(s, 0), 0) == s;
  }

  // ---------------------------------------------------- what each operation does, exactly

  predicate Open(s: Store, c: nat, allowed: bool) {
    c < |s.campaigns| && !s.campaigns[c].archived && allowed
  }

  /** Only campaign `c`'s figure may differ. */
  predicate OnlyFigure(s: Store, t: Store, c: nat) {
    && c < |s.campaigns| == |t.campaigns|
    && (forall k :: 0 <= k < |s.campaigns| && k != c ==> t.campaigns[k] == s.campaigns[k])
    && t.campaigns[c].archived == s.campaigns[c].archived
  }

  /** A metric is added as given, under a new id; the figure is written for non-target spend only. */
  lemma AddExactly(s: Store, c: nat, allowed: bool, name: string, value: real, isTarget: bool)
    ensures MetricAdded(s, c, allowed, name, value, isTarget).Ok? <==> Open(s, c, allowed)
    ensures MetricAdded(s, c, allowed, name, value, isTarget).Ok? ==>
              var t := MetricAdded(s, c, allowed, name, value, isTarget).value;
              && OnlyFigure(s, t, c) && |t.metrics| == |s.metrics| + 1 && s.metrics < t.metrics && t.nextId == s.nextId + 1
              && t.metrics[|s.metrics|] == Metric(s.nextId, c, name, value, isTarget, false)
              && if name == "spend" && !isTarget then t.campaigns[c].actualSpend == Some(SpendOf(t.metrics, c))
                 else t.campaigns[c] == s.campaigns[c]
  {
  }

  /** A metric is deleted exactly if it is one of the campaign's; the others stay, in order. */
  lemma DeleteExactly(s: Store, c: nat, allowed: bool, id: nat)
    requires DistinctIds(s)
    ensures MetricDeleted(s, c, allowed, id).Ok? <==>
              Open(s, c, allowed) && exists i :: 0 <= i < |s.metrics| && s.metrics[i].id == id && s.metrics[i].campaign == c
  {
    if Find(s.metrics, id).Some? {
      var i := Find(s.metrics, id).value;
      if j :| 0 <= j < |s.metrics| && s.metrics[j].id == id && s.metrics[j].campaign == c { assert i == j; }
    }
  }

  lemma DeleteEffect(s: Store, c: nat, allowed: bool, id: nat) returns (i: nat)
    requires MetricDeleted(s, c, allowed, id).Ok?
    ensures i < |s.metrics| && s.metrics[i].id == id && s.metrics[i].campaign == c
    ensures var t := MetricDeleted(s, c, allowed, id).value;
            && OnlyFigure(s, t, c) && t.nextId == s.nextId && |t.metrics| == |s.metrics| - 1
            && (forall k :: 0 <= k < i ==> t.metrics[k] == s.metrics[k])
            && (forall k :: i <= k < |t.metrics| ==> t.metrics[k] == s.metrics[k + 1])
            && if s.metrics[i].name == "spend" && !s.metrics[i].isTarget then t.campaigns[c].actualSpend == Some(SpendOf(t.metrics, c))
               else t.campaigns[c] == s.campaigns[c]
  {
    i := Find(s.metrics, id).value;
  }

  /** Metric `m` carries the legacy figure of its campaign, which had no spend metric. */
  predicate Migrates(s: Store, m: Metric) {
    && m.campaign < |s.campaigns| && m.name == "spend" && !m.isTarget && m.migrated
    && s.campaigns[m.campaign].actualSpend == Some(m.value) && m.value > 0.0
    && forall i :: 0 <= i < |s.metrics| ==> !(s.metrics[i].campaign == m.campaign && s.metrics[i].name == "spend" && !s.metrics[i].isTarget)
  }

  /** The metrics are as before, with one more behind them if `one` says so. */
  predicate Extends(before: seq<Metric>, after: seq<Metric>, one: bool, c: nat, value: real) {
    && |after| == |before| + (if one then 1 else 0)
    && (forall k :: 0 <= k < |before| ==> after[k] == before[k])
    && (one ==> after[|before|] == Metric(after[|before|].id, c, "spend", value, false, true))
  }

  lemma OneBackfilled(u: Store, c: nat)
    requires c < |u.campaigns|
    ensures Extends(u.metrics, BackfilledOne(u, c).metrics, MigratingAt(u)(c), c, u.campaigns[c].actualSpend.GetOr(0.0))
  {
  }

  /** What the first `n` campaigns have added: one migrated metric for each counted, in their order, behind the old ones. */
  predicate Progress(s: Store, metrics: seq<Metric>, n: nat) {
    && |metrics| == |s.metrics| + CountIf(n, MigratingAt(s))
    && (forall k :: 0 <= k < |s.metrics| ==> metrics[k] == s.metrics[k])
    && (forall k :: |s.metrics| <= k < |metrics| ==> Migrates(s, metrics[k]) && metrics[k].campaign < n)
    && (forall j, k :: |s.metrics| <= j < k < |metrics| ==> metrics[j].campaign < metrics[k].campaign)
  }

  lemma ProgressStep(s: Store, before: seq<Metric>, after: seq<Metric>, c: nat)
    requires c < |s.campaigns| && Progress(s, before, c)
    requires Extends(before, after, MigratingAt(s)(c), c, s.campaigns[c].actualSpend.GetOr(0.0))
    ensures Progress(s, after, c + 1)
  {
    if MigratingAt(s)(c) { NoSpendRow(s.metrics, c); }
  }

  lemma StepExtends(s: Store, c: nat, before: seq<Metric>, after: seq<Metric>)
    requires c < |s.campaigns| && before == Backfilled(s, c).metrics && after == Backfilled(s, c + 1).metrics
    ensures Extends(before, after, MigratingAt(s)(c), c, s.campaigns[c].actualSpend.GetOr(0.0))
  {
    StillToCome(s, c);
    OneBackfilled(Backfilled(s, c), c);
  }

  /** The metrics as they stand after each campaign in turn. */
  function Stages(s: Store, n: nat): (r: seq<seq<Metric>>)
    requires n <= |s.campaigns|
    ensures |r| == n + 1
    ensures forall c :: 0 <= c <= n ==> r[c] == Backfilled(s, c).metrics
  {
    if n == 0 then [s.metrics] else Stages(s, n - 1) + [Backfilled(s, n).metrics]
  }

  lemma ProgressStart(s: Store, metrics: seq<Metric>)
    requires metrics == s.metrics
    ensures Progress(s, metrics, 0)
  {
  }

  predicate Linked(s: Store, stages: seq<seq<Metric>>, c: nat) {
    && c < |s.campaigns| && c + 1 < |stages|
    && Extends(stages[c], stages[c + 1], MigratingAt(s)(c), c, s.campaigns[c].actualSpend.GetOr(0.0))
  }

  lemma {:induction false} StagesProgress(s: Store, stages: seq<seq<Metric>>, n: nat)
    requires n < |stages| <= |s.campaigns| + 1 && stages[0] == s.metrics
    requires forall c :: 0 <= c < |stages| - 1 ==> Linked(s, stages, c)
    ensures Progress(s, stages[n], n)
    decreases n
  {
    if n == 0 {
      ProgressStart(s, stages[0]);
    } else {
      StagesProgress(s, stages, n - 1);
      assert Linked(s, stages, n - 1);
      ProgressStep(s, stages[n - 1], stages[n], n - 1);
    }
  }

  /** The backfill adds, behind the metrics there are, one migrated metric for each campaign it counts as migrated. */
  lemma BackfillExactly(s: Store, n: nat)
    requires n <= |s.campaigns|
    ensures Progress(s, Backfilled(s, n).metrics, n)
  {
    var stages := Stages(s, n);
    forall c | 0 <= c < |stages| - 1
      ensures Linked(s, stages, c)
    {
      StepExtends(s, c, stages[c], stages[c + 1]);
    }
    StagesProgress(s, stages, n);
  }

  lemma StillToCome(s: Store, c: nat)
    requires c < |s.campaigns|
    ensures Backfilled(s, c).campaigns[c] == s.campaigns[c] && (MigratingAt(Backfilled(s, c))(c) <==> MigratingAt(s)(c))
  {
    UntouchedYet(s, c, c);
  }

  lemma NoSpendRow(metrics: seq<Metric>, c: nat)
    requires !HasSpend(metrics, c)
    ensures forall i :: 0 <= i < |metrics| ==> !(metrics[i].campaign == c && metrics[i].name == "spend" && !metrics[i].isTarget)
  {
    HasSpendExactly(metrics, c);
  }
}
