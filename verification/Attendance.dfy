/** The attendance clock of one user's day (src/domain/attendance.ts); instants are milliseconds. */
module Attendance {
  import opened Common

  datatype Kind = CheckIn | BreakStart | BreakEnd | CheckOut

  datatype Event = Event(kind: Kind, at: int)

  datatype Presence = Present | Late

  datatype Record = Record(
    expectedStart: Option<int>, expectedEnd: Option<int>, actualStart: Option<int>, actualEnd: Option<int>,
    status: Presence, lateMinutes: int, breakMinutes: int, totalWorkedMinutes: int,
    earlyLeaveMinutes: int, overtimeMinutes: int)

  /** The day's record, if there is one, and the events of the day in the order of a query by time. */
  datatype Day = Day(record: Option<Record>, events: seq<Event>)

  datatype ClockState = Out | Working | OnBreak | CheckedOut

  datatype Error = AlreadyIn | BadTransition | NotIn | StillOnBreak | AlreadyOut

  const MINUTE := 60000

  /** Whole minutes from `b` to `a`, ties rounded up as `Math.round` does, never negative. */
  function Mins(a: int, b: int): int {
    Max(0, (a - b + MINUTE / 2) / MINUTE)
  }

  // -------------------------------------------------------------- the clock state

  /** Where a query ordered by time shows a new event. */
  function Inserted(events: seq<Event>, e: Event): seq<Event> {
    if events == [] || events[|events| - 1].at <= e.at then events + [e]
    else Inserted(events[..|events| - 1], e) + [events[|events| - 1]]
  }

  function Sorted(events: seq<Event>): seq<Event> {
    if events == [] then [] else Inserted(Sorted(events[..|events| - 1]), events[|events| - 1])
  }

  /** Whether the latest break event opens a break. */
  predicate BreakOpen(events: seq<Event>) {
    events != [] &&
    match events[|events| - 1].kind
    case BreakStart => true
    case BreakEnd => false
    case _ => BreakOpen(events[..|events| - 1])
  }

  function State(d: Day): ClockState {
    if d.record.None? || d.record.value.actualStart.None? then Out
    else if d.record.value.actualEnd.Some? then CheckedOut
    else if BreakOpen(Sorted(d.events)) then OnBreak
    else Working
  }

  /** When the latest break began. */
  function LastBreakStart(events: seq<Event>): Option<int> {
    if events == [] then None
    else if events[|events| - 1].kind == BreakStart then Some(events[|events| - 1].at)
    else LastBreakStart(events[..|events| - 1])
  }

  // ------------------------------------------------------- the service functions

  function CheckedIn(d: Day, now: int, grace: int): Result<Day, Error> {
    if State(d) != Out then Err(AlreadyIn)
    else
      var was := d.record.GetOr(Record(None, None, None, None, Present, 0, 0, 0, 0, 0));
      var past := if was.expectedStart.Some? then Mins(now, was.expectedStart.value) else 0;
      var late := if past > grace then past else 0;
      var r := was.(actualStart := Some(now), status := if late > 0 then Late else Present, lateMinutes := late);
      Ok(Day(Some(r), Inserted(d.events, Event(CheckIn, now))))
  }

  function BreakStarted(d: Day, now: int): Result<Day, Error> {
    if State(d) != Working then Err(BadTransition)
    else Ok(d.(events := Inserted(d.events, Event(BreakStart, now))))
  }

  function BreakEnded(d: Day, now: int): Result<Day, Error> {
    var start := LastBreakStart(d.events);
    if State(d) != OnBreak || start.None? then Err(BadTransition)
    else
      var r := d.record.value;
      Ok(Day(Some(r.(breakMinutes := r.breakMinutes + Mins(now, start.value))), Inserted(d.events, Event(BreakEnd, now))))
  }

  function CheckedOutAt(d: Day, now: int): Result<Day, Error> {
    match State(d)
    case Out => Err(NotIn)
    case OnBreak => Err(StillOnBreak)
    case CheckedOut => Err(AlreadyOut)
    case Working =>
      var r := d.record.value;
      var worked := Max(0, Mins(now, r.actualStart.value) - r.breakMinutes);
      var early := if r.expectedEnd.Some? then Mins(r.expectedEnd.value, now) else 0;
      var over := if r.expectedEnd.Some? then Mins(now, r.expectedEnd.value) else 0;
      var r' := r.(actualEnd := Some(now), totalWorkedMinutes := worked, earlyLeaveMinutes := early, overtimeMinutes := over);
      Ok(Day(Some(r'), Inserted(d.events, Event(CheckOut, now))))
  }

  // --------------------------------------------------------------- the day itself

  class AttendanceDay {
    var record: Option<Record>
    var events: seq<Event>

    function Value(): Day
      reads this
    {
      Day(record, events)
    }

    constructor (d: Day)
      ensures Value() == d
    {
      record, events := d.record, d.events;
    }

    method DeriveState() returns (state: ClockState)
      ensures state == State(Value())
    {
      if record.None? || record.value.actualStart.None? { return Out; }
      if record.value.actualEnd.Some? { return CheckedOut; }
      var onBreak := false;
      var sorted := Sorted(events);
      for i := 0 to |sorted|
        invariant onBreak == BreakOpen(sorted[..i])
      {
        assert sorted[..i + 1][..i] == sorted[..i];
        if sorted[i].kind == BreakStart { onBreak := true; }
        else if sorted[i].kind == BreakEnd { onBreak := false; }
      }
      assert sorted[..|sorted|] == sorted;
      return if onBreak then OnBreak else Working;
    }

    method ClockIn(now: int, grace: int) returns (error: Option<Error>)
      modifies this
      ensures Value() == After(old(Value()), CheckedIn(old(Value()), now, grace))
      ensures error == ErrorOf(CheckedIn(old(Value()), now, grace))
    {
      var state := DeriveState();
      if state != Out { return Some(AlreadyIn); }
      var minutesPast := 0;
      if record.Some? && record.value.expectedStart.Some? {
        minutesPast := Mins(now, record.value.expectedStart.value);
      }
      var lateMinutes := if minutesPast > grace then minutesPast else 0;
      if record.None? { record := Some(Record(None, None, None, None, Present, 0, 0, 0, 0, 0)); }
      record := Some(record.value.(actualStart := Some(now), status := if lateMinutes > 0 then Late else Present,
                                   lateMinutes := lateMinutes));
      events := Inserted(events, Event(CheckIn, now));
      return None;
    }

    method StartBreak(now: int) returns (error: Option<Error>)
      modifies this
      ensures Value() == After(old(Value()), BreakStarted(old(Value()), now))
      ensures error == ErrorOf(BreakStarted(old(Value()), now))
    {
      var state := DeriveState();
      if state != Working { return Some(BadTransition); }
      events := Inserted(events, Event(BreakStart, now));
      return None;
    }

    method EndBreak(now: int) returns (error: Option<Error>)
      modifies this
      ensures Value() == After(old(Value()), BreakEnded(old(Value()), now))
      ensures error == ErrorOf(BreakEnded(old(Value()), now))
    {
      var state := DeriveState();
      var start := LastBreakStart(events);
      if state != OnBreak || start.None? { return Some(BadTransition); }
      events := Inserted(events, Event(BreakEnd, now));
      record := Some(record.value.(breakMinutes := record.value.breakMinutes + Mins(now, start.value)));
      return None;
    }

    method ClockOut(now: int) returns (error: Option<Error>)
      modifies this
      ensures Value() == After(old(Value()), CheckedOutAt(old(Value()), now))
      ensures error == ErrorOf(CheckedOutAt(old(Value()), now))
    {
      var state := DeriveState();
      if state == Out { return Some(NotIn); }
      if state == OnBreak { return Some(StillOnBreak); }
      if state == CheckedOut { return Some(AlreadyOut); }
      var r := record.value;
      var early, over := 0, 0;
      if r.expectedEnd.Some? { early, over := Mins(r.expectedEnd.value, now), Mins(now, r.expectedEnd.value); }
      record := Some(r.(actualEnd := Some(now), earlyLeaveMinutes := early, overtimeMinutes := over,
                        totalWorkedMinutes := Max(0, Mins(now, r.actualStart.value) - r.breakMinutes)));
      events := Inserted(events, Event(CheckOut, now));
      return None;
    }
  }

  // ------------------------------------------------------------------------- runs

  datatype Action = In(grace: int) | Pause | Resume | Leave

  datatype Op = Op(action: Action, at: int)

  function Perform(d: Day, op: Op): Result<Day, Error> {
    match op.action
    case In(grace) => CheckedIn(d, op.at, grace)
    case Pause => BreakStarted(d, op.at)
    case Resume => BreakEnded(d, op.at)
    case Leave => CheckedOutAt(d, op.at)
  }

  function Run(d: Day, ops: seq<Op>): Day
    decreases |ops|
  {
    if ops == [] then d else Run(After(d, Perform(d, ops[0])), ops[1..])
  }

  /** The clock only moves forward. */
  predicate Forward(now: int, ops: seq<Op>)
    decreases |ops|
  {
    ops == [] || (now < ops[0].at && Forward(ops[0].at, ops[1..]))
  }

  /** A day before its first event, possibly with a planned shift. */
  predicate Untouched(d: Day) {
    && d.events == []
    && (d.record.Some? ==> d.record.value.actualStart.None? && d.record.value.actualEnd.None?
                           && d.record.value.breakMinutes == 0)
  }

  // ----------------------------------------------------------------- the automaton

  /** Which events may stand at position `i` of `n`. */
  predicate Fits(kind: Kind, i: int, n: int) {
    match kind
    case CheckIn => i == 0
    case BreakStart => i % 2 == 1
    case BreakEnd => i % 2 == 0 && i > 0
    case CheckOut => i % 2 == 1 && i == n - 1
  }

  /** `check_in (break_start break_end)* break_start?`, or the same with breaks closed and a final `check_out`. */
  predicate WellFormed(events: seq<Event>) {
    forall i :: 0 <= i < |events| ==> Fits(events[i].kind, i, |events|)
  }

  predicate Ordered(events: seq<Event>) {
    forall i, j :: 0 <= i < j < |events| ==> events[i].at < events[j].at
  }

  /** What the automaton says of the clock: nothing yet, finished, or the parity of what has happened. */
  function AutomatonState(events: seq<Event>): ClockState {
    if events == [] then Out
    else if events[|events| - 1].kind == CheckOut then CheckedOut
    else if |events| % 2 == 1 then Working
    else OnBreak
  }

  /** Rounded minutes, true milliseconds and number of the closed breaks. */
  function BreakSum(events: seq<Event>): int {
    if |events| < 2 then 0
    else BreakSum(events[..|events| - 1]) +
         if events[|events| - 1].kind == BreakEnd then Mins(events[|events| - 1].at, events[|events| - 2].at) else 0
  }

  function BreakTime(events: seq<Event>): int {
    if |events| < 2 then 0
    else BreakTime(events[..|events| - 1]) +
         if events[|events| - 1].kind == BreakEnd then events[|events| - 1].at - events[|events| - 2].at else 0
  }

  function BreakCount(events: seq<Event>): nat {
    if |events| < 2 then 0
    else BreakCount(events[..|events| - 1]) + if events[|events| - 1].kind == BreakEnd then 1 else 0
  }

  predicate Finished(events: seq<Event>) {
    events != [] && events[|events| - 1].kind == CheckOut
  }

  predicate EventsInv(events: seq<Event>, now: int) {
    WellFormed(events) && Ordered(events) && (events != [] ==> events[|events| - 1].at <= now)
  }

  predicate RecordInv(r: Record, events: seq<Event>) {
    && r.breakMinutes == BreakSum(events)
    && r.actualStart == (if events == [] then None else Some(events[0].at))
    && r.actualEnd == (if Finished(events) then Some(events[|events| - 1].at) else None)
    && (Finished(events) ==>
          && r.totalWorkedMinutes == Max(0, Mins(events[|events| - 1].at, events[0].at) - BreakSum(events))
          && (r.earlyLeaveMinutes == 0 || r.overtimeMinutes == 0))
    && (events != [] ==> (r.status == Late <==> r.lateMinutes > 0))
  }

  predicate Inv(d: Day, now: int) {
    EventsInv(d.events, now) && if d.record.None? then d.events == [] else RecordInv(d.record.value, d.events)
  }

  lemma InsertedLast(events: seq<Event>, e: Event)
    requires events != [] ==> events[|events| - 1].at <= e.at
    ensures Inserted(events, e) == events + [e]
  {
  }

  lemma {:induction false} SortedIsSame(events: seq<Event>)
    requires Ordered(events)
    ensures Sorted(events) == events
    decreases |events|
  {
    if events != [] {
      var n := |events| - 1;
      SortedIsSame(events[..n]);
      InsertedLast(events[..n], events[n]);
      assert events[..n] + [events[n]] == events;
    }
  }

  /** Before check-out, the clock is on break exactly when an even number of events has happened. */
  lemma BreakOpenByParity(events: seq<Event>)
    requires WellFormed(events) && events != [] && !Finished(events)
    ensures BreakOpen(events) <==> |events| % 2 == 0
    ensures |events| % 2 == 0 ==> LastBreakStart(events) == Some(events[|events| - 1].at)
  {
    assert Fits(events[|events| - 1].kind, |events| - 1, |events|);
  }

  lemma StateIsAutomatonState(d: Day, now: int)
    requires Inv(d, now)
    ensures State(d) == AutomatonState(d.events)
  {
    SortedIsSame(d.events);
    if d.events != [] && !Finished(d.events) { BreakOpenByParity(d.events); }
  }

  lemma BreakSumSnoc(events: seq<Event>, e: Event)
    requires e.kind == BreakEnd ==> events != []
    ensures BreakSum(events + [e]) ==
              BreakSum(events) + if e.kind == BreakEnd then Mins(e.at, events[|events| - 1].at) else 0
  {
    assert (events + [e])[..|events|] == events;
  }

  /** The next event keeps the events well formed when the automaton allows it. */
  lemma NextEvent(events: seq<Event>, e: Event, now: int)
    requires EventsInv(events, now) && now < e.at && !Finished(events)
    requires Fits(e.kind, |events|, |events| + 1)
    ensures Inserted(events, e) == events + [e]
    ensures EventsInv(events + [e], e.at)
  {
    var es := events + [e];
    forall i | 0 <= i < |es|
      ensures Fits(es[i].kind, i, |es|)
    {
      if i < |events| { assert Fits(events[i].kind, i, |events|); }
    }
  }

  lemma MinsOfOne(a: int, b: int)
    ensures Mins(a, b) == 0 || Mins(b, a) == 0
  {
  }

  lemma CheckInKeepsInv(d: Day, now: int, at: int, grace: int)
    requires Inv(d, now) && now < at && CheckedIn(d, at, grace).Ok?
    ensures Inv(CheckedIn(d, at, grace).value, at)
  {
    StateIsAutomatonState(d, now);
    NextEvent(d.events, Event(CheckIn, at), now);
    BreakSumSnoc(d.events, Event(CheckIn, at));
  }

  lemma BreakStartKeepsInv(d: Day, now: int, at: int)
    requires Inv(d, now) && now < at && BreakStarted(d, at).Ok?
    ensures Inv(BreakStarted(d, at).value, at)
  {
    StateIsAutomatonState(d, now);
    NextEvent(d.events, Event(BreakStart, at), now);
    BreakSumSnoc(d.events, Event(BreakStart, at));
  }

  lemma BreakEndKeepsInv(d: Day, now: int, at: int)
    requires Inv(d, now) && now < at && BreakEnded(d, at).Ok?
    ensures Inv(BreakEnded(d, at).value, at)
  {
    StateIsAutomatonState(d, now);
    NextEvent(d.events, Event(BreakEnd, at), now);
    BreakSumSnoc(d.events, Event(BreakEnd, at));
    BreakOpenByParity(d.events);
  }

  lemma CheckOutKeepsInv(d: Day, now: int, at: int)
    requires Inv(d, now) && now < at && CheckedOutAt(d, at).Ok?
    ensures Inv(CheckedOutAt(d, at).value, at)
  {
    StateIsAutomatonState(d, now);
    NextEvent(d.events, Event(CheckOut, at), now);
    BreakSumSnoc(d.events, Event(CheckOut, at));
    if d.record.value.expectedEnd.Some? { MinsOfOne(at, d.record.value.expectedEnd.value); }
  }

  lemma {:induction false} RunKeepsInv(d: Day, now: int, ops: seq<Op>) returns (end: int)
    requires Inv(d, now) && Forward(now, ops)
    ensures Inv(Run(d, ops), end)
    decreases |ops|
  {
    if ops == [] { return now; }
    var at := ops[0].at;
    if Perform(d, ops[0]).Ok? {
      match ops[0].action
      case In(grace) => CheckInKeepsInv(d, now, at, grace);
      case Pause => BreakStartKeepsInv(d, now, at);
      case Resume => BreakEndKeepsInv(d, now, at);
      case Leave => CheckOutKeepsInv(d, now, at);
    }
    end := RunKeepsInv(After(d, Perform(d, ops[0])), at, ops[1..]);
  }

  // -------------------------------------------------------------- how long it was

  lemma MinsError(a: int, b: int)
    requires a >= b
    ensures Abs(Mins(a, b) * MINUTE - (a - b)) <= MINUTE / 2
  {
  }

  /** Each break is rounded by at most half a minute, and breaks fit between first and last event. */
  lemma {:induction false} BreakError(events: seq<Event>)
    requires Ordered(events) && events != []
    ensures Abs(BreakSum(events) * MINUTE - BreakTime(events)) <= BreakCount(events) * (MINUTE / 2)
    ensures 0 <= BreakTime(events) <= events[|events| - 1].at - events[0].at
    decreases |events|
  {
    if |events| >= 2 {
      var n := |events|;
      BreakError(events[..n - 1]);
      MinsError(events[n - 1].at, events[n - 2].at);
    }
  }

  /** Milliseconds between check-in and check-out that were not spent on a break. */
  function TrueWork(events: seq<Event>): int
    requires events != []
  {
    events[|events| - 1].at - events[0].at - BreakTime(events)
  }

  /**
   * Over any run of one day's clock operations: the events follow the automaton, the derived
   * state is the automaton's, the break minutes are the sum of the rounded breaks, and the
   * minutes worked with k breaks are within (k+1)/2 minutes of the true working time.
   */
  lemma AttendanceAccounting(d: Day, now: int, ops: seq<Op>)
    requires Untouched(d) && Forward(now, ops)
    ensures var e := Run(d, ops);
            && WellFormed(e.events) && Ordered(e.events)
            && State(e) == AutomatonState(e.events)
            && (e.record.Some? ==> e.record.value.breakMinutes == BreakSum(e.events))
            && (State(e) != Out ==> e.record.Some? && (e.record.value.status == Late <==> e.record.value.lateMinutes > 0))
            && (State(e) == CheckedOut ==>
                  && e.record.Some?
                  && Abs(e.record.value.totalWorkedMinutes * MINUTE - TrueWork(e.events))
                       <= (BreakCount(e.events) + 1) * (MINUTE / 2)
                  && (e.record.value.earlyLeaveMinutes == 0 || e.record.value.overtimeMinutes == 0))
  {
    var end := RunKeepsInv(d, now, ops);
    var e := Run(d, ops);
    StateIsAutomatonState(e, end);
    if Finished(e.events) { WorkedError(e.record.value, e.events); }
  }

  lemma WorkedError(r: Record, events: seq<Event>)
    requires Ordered(events) && Finished(events) && RecordInv(r, events)
    ensures Abs(r.totalWorkedMinutes * MINUTE - TrueWork(events)) <= (BreakCount(events) + 1) * (MINUTE / 2)
  {
    var first, last := events[0].at, events[|events| - 1].at;
    BreakError(events);
    MinsError(last, first);
    ClampedError(Mins(last, first), BreakSum(events), last - first, BreakTime(events), BreakCount(events));
  }

  /** The span's error joins the breaks' errors, and clamping at zero only helps. */
  lemma ClampedError(minutes: int, breaks: int, span: int, breakTime: int, k: nat)
    requires Abs(minutes * MINUTE - span) <= MINUTE / 2 && Abs(breaks * MINUTE - breakTime) <= k * (MINUTE / 2)
    requires breakTime <= span
    ensures Abs(Max(0, minutes - breaks) * MINUTE - (span - breakTime)) <= (k + 1) * (MINUTE / 2)
  {
  }

  // ---------------------------------------------------- what each operation does, exactly

  /** A span in whole minutes: nothing for one that has not begun, else the nearest, a half counting up. */
  predicate RoundedMinutes(begin: int, end: int, m: int) {
    if end <= begin then m == 0 else m >= 0 && -MINUTE / 2 < m * MINUTE - (end - begin) <= MINUTE / 2
  }

  lemma MinsExactly(a: int, b: int, m: int)
    ensures Mins(a, b) == m <==> RoundedMinutes(b, a, m)
  {
  }

  /** The event is the day's last; the earlier ones are as before. */
  predicate Happened(d: Day, after: Day, kind: Kind, now: int) {
    |after.events| == |d.events| + 1 && d.events < after.events && after.events[|d.events|] == Event(kind, now)
  }

  predicate NotYetIn(d: Day) {
    d.record.None? || d.record.value.actualStart.None?
  }

  /** How late a check-in is: the minutes past the expected start, if they exceed the grace period. */
  ghost predicate Lateness(expected: int, now: int, grace: int, late: int) {
    exists m :: RoundedMinutes(expected, now, m) && late == if m > grace then m else 0
  }

  lemma CheckInExactly(d: Day, last: int, now: int, grace: int)
    requires Inv(d, last) && last < now
    ensures CheckedIn(d, now, grace).Ok? <==> NotYetIn(d)
    ensures CheckedIn(d, now, grace).Ok? ==>
              var after := CheckedIn(d, now, grace).value;
              && Happened(d, after, CheckIn, now) && after.record.Some?
              && var r := after.record.value;
                 && r.actualStart == Some(now) && r.actualEnd.None? && r.breakMinutes == 0
                 && (d.record.Some? ==> r == d.record.value.(actualStart := Some(now), status := r.status, lateMinutes := r.lateMinutes))
                 && (d.record.None? ==> r.expectedStart.None? && r.expectedEnd.None? && r.lateMinutes == 0)
                 && (r.status == Late <==> r.lateMinutes > 0)
                 && (r.expectedStart.Some? ==> Lateness(r.expectedStart.value, now, grace, r.lateMinutes))
  {
    StateIsAutomatonState(d, last);
    if CheckedIn(d, now, grace).Ok? {
      NextEvent(d.events, Event(CheckIn, now), last);
      if d.record.Some? && d.record.value.expectedStart.Some? {
        var m := Mins(now, d.record.value.expectedStart.value);
        MinsExactly(now, d.record.value.expectedStart.value, m);
        assert RoundedMinutes(d.record.value.expectedStart.value, now, m);
      }
    }
  }

  /** A break starts while the clock runs and none is open: after an odd number of events, before check-out. */
  predicate Running(d: Day) {
    |d.events| % 2 == 1 && !Finished(d.events)
  }

  predicate Paused(d: Day) {
    d.events != [] && |d.events| % 2 == 0 && !Finished(d.events)
  }

  lemma StartBreakExactly(d: Day, last: int, now: int)
    requires Inv(d, last) && last < now
    ensures BreakStarted(d, now).Ok? <==> Running(d)
    ensures BreakStarted(d, now).Ok? ==>
              BreakStarted(d, now).value.record == d.record && Happened(d, BreakStarted(d, now).value, BreakStart, now)
  {
    StateIsAutomatonState(d, last);
    if BreakStarted(d, now).Ok? { NextEvent(d.events, Event(BreakStart, now), last); }
  }

  /** A break ends while one is open; its rounded length joins the break minutes. */
  lemma EndBreakExactly(d: Day, last: int, now: int)
    requires Inv(d, last) && last < now
    ensures BreakEnded(d, now).Ok? <==> Paused(d)
    ensures BreakEnded(d, now).Ok? ==>
              var after := BreakEnded(d, now).value;
              && Happened(d, after, BreakEnd, now) && d.record.Some? && after.record.Some?
              && d.events != [] && d.events[|d.events| - 1].kind == BreakStart
              && after.record.value == d.record.value.(breakMinutes := after.record.value.breakMinutes)
              && RoundedMinutes(d.events[|d.events| - 1].at, now, after.record.value.breakMinutes - d.record.value.breakMinutes)
  {
    StateIsAutomatonState(d, last);
    if Paused(d) {
      BreakOpenByParity(d.events);
      assert Fits(d.events[|d.events| - 1].kind, |d.events| - 1, |d.events|);
      NextEvent(d.events, Event(BreakEnd, now), last);
      MinsExactly(now, d.events[|d.events| - 1].at, Mins(now, d.events[|d.events| - 1].at));
    }
  }

  /** Leaving before the expected end is early, after it overtime; what was worked is the whole span less the breaks. */
  lemma CheckOutExactly(d: Day, last: int, now: int)
    requires Inv(d, last) && last < now
    ensures CheckedOutAt(d, now).Ok? <==> Running(d)
    ensures CheckedOutAt(d, now) == Err(NotIn) <==> d.events == []
    ensures CheckedOutAt(d, now) == Err(StillOnBreak) <==> Paused(d)
  {
    StateIsAutomatonState(d, last);
  }

  lemma CheckOutEffect(d: Day, last: int, now: int)
    requires Inv(d, last) && last < now && CheckedOutAt(d, now).Ok?
    ensures d.record.Some? && CheckedOutAt(d, now).value.record.Some?
    ensures Happened(d, CheckedOutAt(d, now).value, CheckOut, now)
    ensures Left(d.record.value, CheckedOutAt(d, now).value.record.value, now)
  {
    CheckOutEvent(d, last, now);
    LeftBy(d.record.value, CheckedOutAt(d, now).value.record.value, now);
  }

  lemma CheckOutEvent(d: Day, last: int, now: int)
    requires Inv(d, last) && last < now && CheckedOutAt(d, now).Ok?
    ensures Happened(d, CheckedOutAt(d, now).value, CheckOut, now)
  {
    StateIsAutomatonState(d, last);
    NextEvent(d.events, Event(CheckOut, now), last);
  }

  ghost predicate Left(r: Record, after: Record, now: int) {
    && after == r.(actualEnd := Some(now), totalWorkedMinutes := after.totalWorkedMinutes,
                   earlyLeaveMinutes := after.earlyLeaveMinutes, overtimeMinutes := after.overtimeMinutes)
    && r.actualStart.Some?
    && (exists whole :: RoundedMinutes(r.actualStart.value, now, whole) && after.totalWorkedMinutes == Max(0, whole - r.breakMinutes))
    && (match r.expectedEnd
        case None => after.earlyLeaveMinutes == 0 && after.overtimeMinutes == 0
        case Some(end) => RoundedMinutes(now, end, after.earlyLeaveMinutes) && RoundedMinutes(end, now, after.overtimeMinutes))
  }

  predicate Tallied(r: Record, after: Record, now: int, whole: int, early: int, over: int) {
    after == r.(actualEnd := Some(now), totalWorkedMinutes := Max(0, whole - r.breakMinutes),
                earlyLeaveMinutes := early, overtimeMinutes := over)
  }

  lemma LeftBy(r: Record, after: Record, now: int)
    requires r.actualStart.Some?
    requires Tallied(r, after, now, Mins(now, r.actualStart.value), if r.expectedEnd.Some? then Mins(r.expectedEnd.value, now) else 0,
                     if r.expectedEnd.Some? then Mins(now, r.expectedEnd.value) else 0)
    ensures Left(r, after, now)
  {
    MinsExactly(now, r.actualStart.value, Mins(now, r.actualStart.value));
    assert RoundedMinutes(r.actualStart.value, now, Mins(now, r.actualStart.value));
    if r.expectedEnd.Some? {
      MinsExactly(now, r.expectedEnd.value, after.overtimeMinutes);
      MinsExactly(r.expectedEnd.value, now, after.earlyLeaveMinutes);
    }
  }
}
