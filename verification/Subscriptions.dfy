/** Subscription renewals and the renewal-reminder job (src/domain/subscriptions.ts). */
module Subscriptions {
  import opened Common
  import opened Calendar
  import opened Reminders

  datatype Cycle = Monthly | Quarterly | Yearly | Custom

  datatype SubStatus = Active | Trial | Cancelled

  /** Dates are milliseconds; `sent` is the reminder ledger of the current renewal date. */
  datatype Subscription = Subscription(
    owner: Option<string>, cycle: Cycle, renewalDate: Option<int>, status: SubStatus, archived: bool, sent: set<real>)

  datatype Error = NotFound | Forbidden

  // --------------------------------------------------------------- renewal dates

  function Day(t: int): int { t / DAY }

  function FullYear(t: int): int { MonthOf(Day(t)) / 12 }

  function Month(t: int): int { MonthOf(Day(t)) % 12 }

  function SetMonth(t: int, month: int): int {
    MakeDay(12 * FullYear(t) + month, DateOf(Day(t))) * DAY + t % DAY
  }

  function SetFullYear(t: int, year: int): int {
    MakeDay(12 * year + Month(t), DateOf(Day(t))) * DAY + t % DAY
  }

  function Renewal(from: int, cycle: Cycle): int {
    match cycle
    case Yearly => SetFullYear(from, FullYear(from) + 1)
    case Quarterly => SetMonth(from, Month(from) + 3)
    case _ => SetMonth(from, Month(from) + 1)
  }

  /**
   * The next date lies exactly the calendar months of the cycle ahead, starting with the current
   * one, on the same day of the month if the month reached has it and else as far into the next.
   */
  method NextRenewal(from: int, cycle: Cycle) returns (d: int)
    ensures d == from + Span(MonthOf(Day(from)), Months(cycle)) * DAY
    ensures KeepsDate(Day(from), MonthOf(Day(from)) + Months(cycle), Day(d))
  {
    RenewalAdvances(from, cycle);
    RenewalDayOfMonth(from, cycle);
    d := from;
    if cycle == Yearly {
      d := SetFullYear(d, FullYear(d) + 1);
    } else if cycle == Quarterly {
      d := SetMonth(d, Month(d) + 3);
    } else {
      d := SetMonth(d, Month(d) + 1);
    }
  }

  /** The date given, or the computed one. */
  method NextDate(current: int, cycle: Cycle, next: Option<int>) returns (base: int)
    ensures base == if next.Some? then next.value else Renewal(current, cycle)
  {
    if next.Some? { return next.value; }
    base := NextRenewal(current, cycle);
    RenewalIsSpan(current, cycle);
  }

  /** Day `next` has the date of `day` in month `target`, or runs over into the month after. */
  predicate KeepsDate(day: int, target: int, next: int) {
    if DateOf(day) <= MonthLength(target) then MonthOf(next) == target && DateOf(next) == DateOf(day)
    else MonthOf(next) == target + 1 && DateOf(next) == DateOf(day) - MonthLength(target)
  }

  function Months(cycle: Cycle): nat {
    match cycle
    case Yearly => 12
    case Quarterly => 3
    case _ => 1
  }

  lemma RenewalMonth(from: int, cycle: Cycle)
    ensures Renewal(from, cycle) == MakeDay(MonthOf(Day(from)) + Months(cycle), DateOf(Day(from))) * DAY + from % DAY
  {
    var m := MonthOf(Day(from));
    assert m == 12 * FullYear(from) + Month(from);
    assert 12 * (FullYear(from) + 1) + Month(from) == m + 12;
  }

  lemma MonthsAhead(m: int, k: nat)
    requires k == 1 || k == 3 || k == 12
    ensures k == 1 ==> 28 <= Span(m, k) <= 31
    ensures k == 3 ==> 89 <= Span(m, k) <= 92
    ensures k == 12 ==> 365 <= Span(m, k) <= 366
  {
    SpanTelescopes(m, 1);
    if k == 3 { QuarterBounds(m); }
    if k == 12 { YearBounds(m); }
  }

  lemma QuarterBounds(m: int)
    ensures 89 <= Span(m, 3) <= 92
  {
    var y, k := m / 12, m % 12;
    assert m == 12 * y + k;
    SpanThree(m);
    MonthAt(y, k);
    if k < 10 { MonthAt(y, k + 1); MonthAt(y, k + 2); }
    else if k == 10 { MonthAt(y, 11); MonthAt(y + 1, 0); }
    else { MonthAt(y + 1, 0); MonthAt(y + 1, 1); }
  }

  function LengthOf(k: int, leap: bool): int {
    if k == 1 then (if leap then 29 else 28) else if k in {3, 5, 8, 10} then 30 else 31
  }

  lemma MonthAt(y: int, k: int)
    requires 0 <= k < 12
    ensures MonthLength(12 * y + k) == LengthOf(k, Leap(y))
  {
    Split12(y, k);
  }

  /** Any twelve months in a row: the year with its first `k` months replaced by the next year's. */
  lemma {:induction false} TwelveFrom(y: int, k: nat)
    requires k <= 12
    ensures MonthStart(12 * y + k + 12) - MonthStart(12 * y + k) ==
              (if Leap(y) then 366 else 365)
              + (if k >= 2 then (if Leap(y + 1) then 1 else 0) - (if Leap(y) then 1 else 0) else 0)
    decreases k
  {
    if k == 0 {
      YearLength(y);
    } else {
      TwelveFrom(y, k - 1);
      MonthStep(12 * y + k - 1);
      MonthStep(12 * y + k + 11);
      MonthAt(y, k - 1);
      MonthAt(y + 1, k - 1);
      assert 12 * (y + 1) + (k - 1) == 12 * y + k + 11;
    }
  }

  lemma YearBounds(m: int)
    ensures 365 <= Span(m, 12) <= 366
  {
    SpanTelescopes(m, 12);
    TwelveFrom(m / 12, m % 12);
  }

  /**
   * A renewal advances by exactly the lengths of the calendar months stepped over, starting
   * with the current one, at the same time of day: 28 to 31 days, 89 to 92, or 365 to 366.
   */
  lemma RenewalAdvances(from: int, cycle: Cycle)
    ensures Renewal(from, cycle) == from + Span(MonthOf(Day(from)), Months(cycle)) * DAY
    ensures match cycle
            case Yearly => 365 * DAY <= Renewal(from, cycle) - from <= 366 * DAY
            case Quarterly => 89 * DAY <= Renewal(from, cycle) - from <= 92 * DAY
            case _ => 28 * DAY <= Renewal(from, cycle) - from <= 31 * DAY
  {
    var m := MonthOf(Day(from));
    RenewalMonth(from, cycle);
    SpanTelescopes(m, Months(cycle));
    MonthsAhead(m, Months(cycle));
    assert MakeDay(m + Months(cycle), DateOf(Day(from))) == Day(from) + Span(m, Months(cycle));
    assert from == Day(from) * DAY + from % DAY;
  }

  lemma RenewalIsSpan(from: int, cycle: Cycle)
    ensures Renewal(from, cycle) == from + Span(MonthOf(Day(from)), Months(cycle)) * DAY
  {
    RenewalAdvances(from, cycle);
  }

  /** The day of the month survives exactly when the target month has it; otherwise the date runs over. */
  lemma RenewalDayOfMonth(from: int, cycle: Cycle)
    ensures KeepsDate(Day(from), MonthOf(Day(from)) + Months(cycle), Day(Renewal(from, cycle)))
  {
    var target := MonthOf(Day(from)) + Months(cycle);
    var date := DateOf(Day(from));
    var next := MakeDay(target, date);
    RenewalMonth(from, cycle);
    assert Day(Renewal(from, cycle)) == next;
    MonthStep(target);
    MonthStep(target + 1);
    MonthOfUnique(next, if date <= MonthLength(target) then target else target + 1);
  }

  function Renewals(from: int, cycles: seq<Cycle>): int
    decreases |cycles|
  {
    if cycles == [] then from else Renewals(Renewal(from, cycles[0]), cycles[1..])
  }

  /** Repeated renewal strictly increases the date, by four weeks at least each time. */
  lemma {:induction false} RenewalsIncrease(from: int, cycles: seq<Cycle>)
    ensures Renewals(from, cycles) >= from + 28 * |cycles| * DAY
    decreases |cycles|
  {
    if cycles != [] {
      RenewalAdvances(from, cycles[0]);
      RenewalsIncrease(Renewal(from, cycles[0]), cycles[1..]);
    }
  }

  // ------------------------------------------------------- the service functions

  function Refusal(s: Subscription, allowed: bool): Option<Error> {
    if s.archived then Some(NotFound) else if !allowed then Some(Forbidden) else None
  }

  /** Changing the renewal date resets the ledger; giving the same date again does not. */
  function Updated(s: Subscription, allowed: bool, owner: Option<string>, cycle: Option<Cycle>, date: Option<int>):
    Result<Subscription, Error>
  {
    if Refusal(s, allowed).Some? then Err(Refusal(s, allowed).value)
    else
      var t := s.(owner := if owner.Some? then owner else s.owner, cycle := cycle.GetOr(s.cycle));
      Ok(if date.Some? && date != s.renewalDate then t.(renewalDate := date, sent := {}) else t)
  }

  function Renewed(s: Subscription, allowed: bool, next: Option<int>, now: int): Result<Subscription, Error> {
    if Refusal(s, allowed).Some? then Err(Refusal(s, allowed).value)
    else
      var base := if next.Some? then next.value else Renewal(s.renewalDate.GetOr(now), s.cycle);
      Ok(s.(renewalDate := Some(base), status := Active, sent := {}))
  }

  predicate Scanned(s: Subscription) {
    !s.archived && s.status in {Active, Trial} && s.renewalDate.Some?
  }

  function LedgerOf(s: Subscription): Ledger {
    Ledger(s.renewalDate, s.sent)
  }

  function Reminded(s: Subscription, thresholds: seq<real>, now: int): Subscription {
    s.(sent := Job(LedgerOf(s), thresholds, now, Scanned(s)).sent)
  }

  function RemindAll(subs: seq<Subscription>, thresholds: seq<real>, now: int): seq<Subscription> {
    seq(|subs|, i requires 0 <= i < |subs| => Reminded(subs[i], thresholds, now))
  }

  function FiringAt(subs: seq<Subscription>, thresholds: seq<real>, now: int): nat -> bool {
    (i: nat) => i < |subs| && Fires(LedgerOf(subs[i]), thresholds, now, Scanned(subs[i]))
  }

  function ScannedAt(subs: seq<Subscription>): nat -> bool {
    (i: nat) => i < |subs| && Scanned(subs[i])
  }

  class SubscriptionStore {
    var subs: seq<Subscription>

    constructor (rows: seq<Subscription>)
      ensures subs == rows
    {
      subs := rows;
    }

    method Update(i: nat, allowed: bool, owner: Option<string>, cycle: Option<Cycle>, date: Option<int>)
        returns (error: Option<Error>)
      modifies this
      ensures subs == ApplyAll(old(subs), UpdateSub(i, 0, allowed, owner, cycle, date), [])
      ensures error == if i < |old(subs)| then ErrorOf(Updated(old(subs)[i], allowed, owner, cycle, date)) else Some(NotFound)
    {
      if i >= |subs| || subs[i].archived { return Some(NotFound); }
      if !allowed { return Some(Forbidden); }
      var s := subs[i];
      if owner.Some? { s := s.(owner := owner); }
      if cycle.Some? { s := s.(cycle := cycle.value); }
      if date.Some? && date != s.renewalDate { s := s.(renewalDate := date, sent := {}); }
      subs := subs[i := s];
      return None;
    }

    method Renew(i: nat, allowed: bool, next: Option<int>, now: int) returns (error: Option<Error>)
      modifies this
      ensures subs == ApplyAll(old(subs), RenewSub(i, now, allowed, next), [])
      ensures error == if i < |old(subs)| then ErrorOf(Renewed(old(subs)[i], allowed, next, now)) else Some(NotFound)
    {
      if i >= |subs| || subs[i].archived { return Some(NotFound); }
      if !allowed { return Some(Forbidden); }
      var base := NextDate(subs[i].renewalDate.GetOr(now), subs[i].cycle, next);
      subs := subs[i := subs[i].(renewalDate := Some(base), status := Active, sent := {})];
      return None;
    }

    method GenerateReminders(thresholds: seq<real>, now: int) returns (notified: nat, scanned: nat)
      modifies this
      ensures subs == RemindAll(old(subs), thresholds, now)
      ensures notified == CountIf(|old(subs)|, FiringAt(old(subs), thresholds, now)) && scanned == CountIf(|old(subs)|, ScannedAt(old(subs)))
    {
      notified, scanned := 0, 0;
      ghost var was := subs;
      for i := 0 to |subs|
        invariant |subs| == |was| && forall j :: i <= j < |subs| ==> subs[j] == was[j]
        invariant forall j :: 0 <= j < i ==> subs[j] == Reminded(was[j], thresholds, now)
        invariant notified == CountIf(i, FiringAt(was, thresholds, now)) && scanned == CountIf(i, ScannedAt(was))
      {
        var s := subs[i];
        if !s.archived && s.status in {Active, Trial} && s.renewalDate.Some? {
          scanned := scanned + 1;
          var fired := RemindOne(i, thresholds, now);
          if fired { notified := notified + 1; }
        }
      }
    }

    method RemindOne(i: nat, thresholds: seq<real>, now: int) returns (fired: bool)
      requires i < |subs| && Scanned(subs[i])
      modifies this
      ensures subs == old(subs)[i := Reminded(old(subs)[i], thresholds, now)]
      ensures fired == Fires(LedgerOf(old(subs)[i]), thresholds, now, true)
    {
      var s := subs[i];
      var daysLeft := DaysLeft(s.renewalDate.value, now);
      if daysLeft < 0 { return false; }
      var reached := Reached(thresholds, daysLeft);
      var unsent := reached - s.sent;
      NothingUnsent(reached, s.sent);
      if unsent == {} { return false; }
      subs := subs[i := s.(sent := s.sent + reached)];
      return true;
    }
  }

  // ---------------------------------------------------- what each operation does, exactly

  /** An update sets what it is given; a renewal date other than the present one also empties the ledger. */
  lemma UpdateExactly(s: Subscription, allowed: bool, owner: Option<string>, cycle: Option<Cycle>, date: Option<int>)
    ensures Updated(s, allowed, owner, cycle, date).Ok? <==> !s.archived && allowed
    ensures Updated(s, allowed, owner, cycle, date).Ok? ==>
              var t := Updated(s, allowed, owner, cycle, date).value;
              && t.owner == (if owner.Some? then owner else s.owner)
              && t.cycle == (if cycle.Some? then cycle.value else s.cycle)
              && t.renewalDate == (if date.Some? then date else s.renewalDate)
              && t.sent == (if t.renewalDate == s.renewalDate then s.sent else {})
              && t.status == s.status && !t.archived
  {
  }

  /** A renewal makes the subscription active with an empty ledger, at the date given or one cycle past the present date. */
  lemma RenewExactly(s: Subscription, allowed: bool, next: Option<int>, now: int)
    ensures Renewed(s, allowed, next, now).Ok? <==> !s.archived && allowed
    ensures Renewed(s, allowed, next, now).Ok? ==>
              var t := Renewed(s, allowed, next, now).value;
              && t == s.(renewalDate := t.renewalDate, status := Active, sent := {}) && t.renewalDate.Some?
              && if next.Some? then t.renewalDate == next
                 else var from := if s.renewalDate.Some? then s.renewalDate.value else now;
                      t.renewalDate.value == from + Span(MonthOf(Day(from)), Months(s.cycle)) * DAY
                      && Months(s.cycle) == (if s.cycle == Yearly then 12 else if s.cycle == Quarterly then 3 else 1)
  {
    RenewalIsSpan(s.renewalDate.GetOr(now), s.cycle);
  }

  /** The job only adds to ledgers, and only to those of live, active or trial subscriptions that are not past due. */
  lemma RemindExactly(subs: seq<Subscription>, thresholds: seq<real>, now: int, i: nat, days: int)
    requires i < |subs| && (subs[i].renewalDate.Some? ==> (days - 1) * DAY < subs[i].renewalDate.value - now <= days * DAY)
    ensures |RemindAll(subs, thresholds, now)| == |subs|
    ensures var s, t := subs[i], RemindAll(subs, thresholds, now)[i];
            && t == s.(sent := t.sent)
            && forall x :: x in t.sent <==>
                 (x in s.sent || (!s.archived && s.status != Cancelled && s.renewalDate.Some? && days >= 0 && x in thresholds && x >= days as real))
  {
    JobExactly(LedgerOf(subs[i]), thresholds, now, Scanned(subs[i]), days);
  }

  /** A subscription gets a reminder exactly when the job adds to its ledger; that is what the job counts. */
  lemma RemindersCounted(subs: seq<Subscription>, thresholds: seq<real>, now: int)
    ensures CountIf(|subs|, FiringAt(subs, thresholds, now)) ==
              |set i: nat | i < |subs| && RemindAll(subs, thresholds, now)[i].sent != subs[i].sent|
    ensures CountIf(|subs|, ScannedAt(subs)) ==
              |set i: nat | i < |subs| && !subs[i].archived && subs[i].status != Cancelled && subs[i].renewalDate.Some?|
  {
    CountIfIsSize(|subs|, FiringAt(subs, thresholds, now));
    CountIfIsSize(|subs|, ScannedAt(subs));
    forall i: nat | i < |subs|
      ensures Fires(LedgerOf(subs[i]), thresholds, now, Scanned(subs[i])) <==> Reminded(subs[i], thresholds, now).sent != subs[i].sent
    {
      FiringAdds(LedgerOf(subs[i]), thresholds, now, Scanned(subs[i]));
    }
    assert Satisfying(|subs|, FiringAt(subs, thresholds, now)) ==
           set i: nat | i < |subs| && RemindAll(subs, thresholds, now)[i].sent != subs[i].sent;
    assert Satisfying(|subs|, ScannedAt(subs)) ==
           set i: nat | i < |subs| && !subs[i].archived && subs[i].status != Cancelled && subs[i].renewalDate.Some?;
  }

  // ------------------------------------------------------------------------- runs

  datatype SubOp =
    | UpdateSub(i: nat, now: int, allowed: bool, owner: Option<string>, cycle: Option<Cycle>, date: Option<int>)
    | RenewSub(i: nat, now: int, allowed: bool, next: Option<int>)
    | RemindSubs(now: int)

  function ApplyAll(subs: seq<Subscription>, op: SubOp, thresholds: seq<real>): seq<Subscription> {
    match op
    case UpdateSub(i, _, allowed, owner, cycle, date) =>
      if i < |subs| then subs[i := After(subs[i], Updated(subs[i], allowed, owner, cycle, date))] else subs
    case RenewSub(i, now, allowed, next) =>
      if i < |subs| then subs[i := After(subs[i], Renewed(subs[i], allowed, next, now))] else subs
    case RemindSubs(now) => RemindAll(subs, thresholds, now)
  }

  function RunAll(subs: seq<Subscription>, ops: seq<SubOp>, thresholds: seq<real>): seq<Subscription>
    decreases |ops|
  {
    if ops == [] then subs else RunAll(ApplyAll(subs, ops[0], thresholds), ops[1..], thresholds)
  }

  predicate ForwardOps(clock: int, ops: seq<SubOp>)
    decreases |ops|
  {
    ops == [] || (clock <= ops[0].now && ForwardOps(ops[0].now, ops[1..]))
  }

  /** What a store operation means for the ledger of subscription `k`, if anything. */
  function SeenBy(subs: seq<Subscription>, k: nat, op: SubOp): Option<Op>
    requires k < |subs|
  {
    match op
    case RemindSubs(now) => Some(RunJob(now, Scanned(subs[k])))
    case UpdateSub(i, now, allowed, owner, cycle, date) =>
      if i == k && Refusal(subs[k], allowed).None? && date.Some? && date != subs[k].renewalDate
      then Some(SetDate(now, date)) else None
    case RenewSub(i, now, allowed, next) =>
      if i == k && Refusal(subs[k], allowed).None?
      then Some(SetDate(now, Renewed(subs[k], allowed, next, now).value.renewalDate)) else None
  }

  function Track(subs: seq<Subscription>, k: nat, t: Tracked, ops: seq<SubOp>, thresholds: seq<real>): Tracked
    requires k < |subs|
    decreases |ops|
  {
    if ops == [] then t
    else
      var seen := SeenBy(subs, k, ops[0]);
      Track(ApplyAll(subs, ops[0], thresholds), k,
            if seen.Some? then Step(t, seen.value, thresholds) else t, ops[1..], thresholds)
  }

  /** Every store operation acts on a subscription's ledger as the ledger machine does, or not at all. */
  lemma LedgerRefines(subs: seq<Subscription>, k: nat, t: Tracked, op: SubOp, thresholds: seq<real>)
    requires k < |subs| && t.ledger == LedgerOf(subs[k])
    ensures |ApplyAll(subs, op, thresholds)| == |subs|
    ensures var seen := SeenBy(subs, k, op);
            LedgerOf(ApplyAll(subs, op, thresholds)[k]) ==
              (if seen.Some? then Step(t, seen.value, thresholds) else t).ledger
  {
  }

  /**
   * Over any run of updates, renewals and reminder jobs at non-decreasing times, every
   * subscription's ledger holds exactly the thresholds reached when the job last looked at its
   * current date, and at most one reminder went out per distinct threshold.
   */
  lemma {:induction false} StoreLedgersAreExact(
      subs: seq<Subscription>, k: nat, t: Tracked, ops: seq<SubOp>, thresholds: seq<real>)
    requires k < |subs| && t.ledger == LedgerOf(subs[k]) && Inv(t, thresholds) && ForwardOps(t.clock, ops)
    ensures k < |RunAll(subs, ops, thresholds)|
    ensures var end := Track(subs, k, t, ops, thresholds);
            && LedgerOf(RunAll(subs, ops, thresholds)[k]) == end.ledger
            && Inv(end, thresholds) && end.rounds <= |ToSet(thresholds)|
    decreases |ops|
  {
    if ops == [] {
      LedgerIsExact(t, [], thresholds);
    } else {
      var seen := SeenBy(subs, k, ops[0]);
      LedgerRefines(subs, k, t, ops[0], thresholds);
      if seen.Some? { StepKeepsInv(t, seen.value, thresholds); }
      var t' := if seen.Some? then Step(t, seen.value, thresholds) else t;
      LaterStart(t'.clock, ops[0].now, ops[1..]);
      StoreLedgersAreExact(ApplyAll(subs, ops[0], thresholds), k, t', ops[1..], thresholds);
    }
  }

  lemma LaterStart(clock: int, now: int, ops: seq<SubOp>)
    requires clock <= now && ForwardOps(now, ops)
    ensures ForwardOps(clock, ops)
  {
  }
}
