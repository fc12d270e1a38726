/**
 * The reminder ledger shared by subscriptions and documents: which thresholds (days before a
 * due date) have already been reminded of.
 */
module Reminders {
  import opened Common
  import opened Calendar

  /** The due date, in milliseconds, and the thresholds already sent. */
  datatype Ledger = Ledger(due: Option<int>, sent: set<real>)

  /** Days left, rounded up. */
  function DaysLeft(due: int, now: int): int {
    -((now - due) / DAY)
  }

  /** Days left are counted up: the least number of whole days that reaches the due date. */
  lemma DaysLeftExactly(due: int, now: int, days: int)
    ensures DaysLeft(due, now) == days <==> (days - 1) * DAY < due - now <= days * DAY
  {
  }

  /** The thresholds a job marks: those already marked, and, when it fires, all that are not below the days left. */
  lemma JobExactly(l: Ledger, thresholds: seq<real>, now: int, eligible: bool, days: int)
    requires l.due.Some? ==> (days - 1) * DAY < l.due.value - now <= days * DAY
    ensures Job(l, thresholds, now, eligible).due == l.due
    ensures forall x :: x in Job(l, thresholds, now, eligible).sent <==>
              x in l.sent || (eligible && l.due.Some? && days >= 0 && x in thresholds && x >= days as real)
  {
    if l.due.Some? { DaysLeftExactly(l.due.value, now, days); }
  }

  function ToSet(thresholds: seq<real>): set<real> {
    set t | t in thresholds
  }

  /** Thresholds reached when `days` are left. */
  function Reached(thresholds: seq<real>, days: int): set<real> {
    set t | t in thresholds && t >= days as real
  }

  predicate Fires(l: Ledger, thresholds: seq<real>, now: int, eligible: bool) {
    && eligible && l.due.Some? && DaysLeft(l.due.value, now) >= 0
    && !(Reached(thresholds, DaysLeft(l.due.value, now)) <= l.sent)
  }

  /** One run of the job: a reminder marks every reached threshold as sent. */
  function Job(l: Ledger, thresholds: seq<real>, now: int, eligible: bool): Ledger {
    if Fires(l, thresholds, now, eligible)
    then l.(sent := l.sent + Reached(thresholds, DaysLeft(l.due.value, now)))
    else l
  }

  lemma NothingUnsent(reached: set<real>, sent: set<real>)
    ensures reached - sent == {} <==> reached <= sent
  {
    if reached - sent == {} {
      forall x | x in reached
        ensures x in sent
      {
        assert x !in reached - sent;
      }
    }
  }

  /** The job fires exactly when it adds to the ledger. */
  lemma FiringAdds(l: Ledger, thresholds: seq<real>, now: int, eligible: bool)
    ensures Fires(l, thresholds, now, eligible) <==> Job(l, thresholds, now, eligible).sent != l.sent
  {
    if Fires(l, thresholds, now, eligible) {
      var x :| x in Reached(thresholds, DaysLeft(l.due.value, now)) && x !in l.sent;
    }
  }

  function Rearmed(due: Option<int>): Ledger {
    Ledger(due, {})
  }

  // ------------------------------------------------------------------------- runs

  datatype Op =
    | RunJob(now: int, eligible: bool)
    | SetDate(now: int, due: Option<int>)

  /**
   * A ledger with its history since the date last changed: the days left when the job last
   * looked at it, and the reminders it has sent.
   */
  datatype Tracked = Tracked(ledger: Ledger, seen: Option<int>, rounds: nat, clock: int)

  function Step(t: Tracked, op: Op, thresholds: seq<real>): Tracked {
    match op
    case SetDate(now, due) => Tracked(Rearmed(due), None, 0, now)
    case RunJob(now, eligible) =>
      var looked := eligible && t.ledger.due.Some? && DaysLeft(t.ledger.due.value, now) >= 0;
      Tracked(Job(t.ledger, thresholds, now, eligible),
              if looked then Some(DaysLeft(t.ledger.due.value, now)) else t.seen,
              t.rounds + if Fires(t.ledger, thresholds, now, eligible) then 1 else 0,
              now)
  }

  function Run(t: Tracked, ops: seq<Op>, thresholds: seq<real>): Tracked
    decreases |ops|
  {
    if ops == [] then t else Run(Step(t, ops[0], thresholds), ops[1..], thresholds)
  }

  /** The clock never goes back. */
  predicate Forward(clock: int, ops: seq<Op>)
    decreases |ops|
  {
    ops == [] || (clock <= ops[0].now && Forward(ops[0].now, ops[1..]))
  }

  /** The ledger holds exactly the thresholds reached when it was last looked at, one round at most for each. */
  predicate Inv(t: Tracked, thresholds: seq<real>) {
    && t.ledger.sent == (if t.seen.Some? then Reached(thresholds, t.seen.value) else {})
    && (t.seen.Some? ==> t.ledger.due.Some? && DaysLeft(t.ledger.due.value, t.clock) <= t.seen.value)
    && t.rounds <= |t.ledger.sent|
  }

  lemma DaysOnlyFall(due: int, now: int, later: int)
    requires now <= later
    ensures DaysLeft(due, later) <= DaysLeft(due, now)
  {
  }

  lemma ProperSubset(s: set<real>, t: set<real>)
    requires !(t <= s)
    ensures |s + t| > |s|
  {
    assert s + t == s + (t - s) && t - s != {};
  }

  lemma Subset(s: set<real>, t: set<real>)
    requires s <= t
    ensures |s| <= |t|
  {
    assert t == s + (t - s);
  }

  /** A round fires exactly when some threshold lies between the days left now and those seen before. */
  lemma FiresExactly(t: Tracked, thresholds: seq<real>, now: int, eligible: bool)
    requires Inv(t, thresholds) && t.clock <= now
    ensures Fires(t.ledger, thresholds, now, eligible) <==>
      && eligible && t.ledger.due.Some? && DaysLeft(t.ledger.due.value, now) >= 0
      && exists x :: x in thresholds && DaysLeft(t.ledger.due.value, now) as real <= x
                     && (t.seen.Some? ==> x < t.seen.value as real)
  {
    if t.ledger.due.Some? {
      var d := DaysLeft(t.ledger.due.value, now);
      if x :| x in Reached(thresholds, d) && x !in t.ledger.sent {
        assert x in thresholds && d as real <= x;
      }
      if x :| x in thresholds && d as real <= x && (t.seen.Some? ==> x < t.seen.value as real) {
        assert x in Reached(thresholds, d) && x !in t.ledger.sent;
      }
    }
  }

  lemma StepKeepsInv(t: Tracked, op: Op, thresholds: seq<real>)
    requires Inv(t, thresholds) && t.clock <= op.now
    ensures Inv(Step(t, op, thresholds), thresholds)
  {
    if op.RunJob? && t.ledger.due.Some? {
      DaysOnlyFall(t.ledger.due.value, t.clock, op.now);
      var reached := Reached(thresholds, DaysLeft(t.ledger.due.value, op.now));
      assert t.seen.Some? ==> t.ledger.sent <= reached;
      if Fires(t.ledger, thresholds, op.now, op.eligible) { ProperSubset(t.ledger.sent, reached); }
    }
  }

  /**
   * Over any run of the job at non-decreasing times, with date changes in between: the ledger
   * is exact, and since the date last changed there were at most as many rounds as distinct
   * thresholds.
   */
  lemma {:induction false} LedgerIsExact(t: Tracked, ops: seq<Op>, thresholds: seq<real>)
    requires Inv(t, thresholds) && Forward(t.clock, ops)
    ensures Inv(Run(t, ops, thresholds), thresholds)
    ensures Run(t, ops, thresholds).rounds <= |ToSet(thresholds)|
    decreases |ops|
  {
    if ops == [] {
      assert t.ledger.sent <= ToSet(thresholds);
      Subset(t.ledger.sent, ToSet(thresholds));
    } else {
      StepKeepsInv(t, ops[0], thresholds);
      LedgerIsExact(Step(t, ops[0], thresholds), ops[1..], thresholds);
    }
  }

  /** Running the job again, with the same number of days left or later the same day, changes nothing. */
  lemma RerunIsNoOp(l: Ledger, thresholds: seq<real>, now: int, again: int, eligible: bool)
    requires l.due.Some? ==> DaysLeft(l.due.value, again) == DaysLeft(l.due.value, now)
    ensures var after := Job(l, thresholds, now, eligible);
            !Fires(after, thresholds, again, eligible) && Job(after, thresholds, again, eligible) == after
  {
  }

  /** A change of date re-arms the ledger: the next run fires if any threshold is reached. */
  lemma DateChangeRearms(due: int, thresholds: seq<real>, now: int)
    ensures Inv(Tracked(Rearmed(Some(due)), None, 0, now), thresholds)
    ensures Fires(Rearmed(Some(due)), thresholds, now, true)
            <==> DaysLeft(due, now) >= 0 && exists x :: x in thresholds && x >= DaysLeft(due, now) as real
  {
    var d := DaysLeft(due, now);
    if x :| x in thresholds && x >= d as real { assert x in Reached(thresholds, d); }
    if x :| x in Reached(thresholds, d) { assert x in thresholds; }
  }
}
