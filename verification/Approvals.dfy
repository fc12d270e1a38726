/** Sequential multi-step approvals (src/domain/approvals.ts). */
module Approvals {
  import opened Common

  /** The status of a request, and of a step (which is never cancelled). */
  datatype Verdict = Pending | Approved | Rejected | Changes | Cancelled

  datatype Step = Step(order: nat, approver: Option<string>, status: Verdict, decidedAt: Option<int>)

  datatype Request = Request(requester: string, status: Verdict, currentStep: nat, steps: seq<Step>, archived: bool)

  datatype Error = Invalid | NotFound | Closed | NoStep | Forbidden

  // ------------------------------------------------------- the service functions

  function NewSteps(approvers: seq<string>): seq<Step> {
    seq(|approvers|, i requires 0 <= i < |approvers| => Step(i + 1, Some(approvers[i]), Pending, None))
  }

  function Created(requester: string, approvers: seq<string>): Result<Request, Error> {
    if approvers == [] || "" in approvers then Err(Invalid)
    else Ok(Request(requester, Pending, 1, NewSteps(approvers), false))
  }

  /** The first step, in order, whose `order` is the given one. */
  function Find(steps: seq<Step>, order: nat): (r: Option<nat>)
    ensures r.Some? ==> r.value < |steps| && steps[r.value].order == order
    ensures r.None? ==> forall i :: 0 <= i < |steps| ==> steps[i].order != order
  {
    if steps == [] then None
    else if steps[0].order == order then Some(0)
    else match Find(steps[1..], order)
      case None => None
      case Some(i) => Some(i + 1)
  }

  predicate MayDecide(step: Step, user: string, hasRight: bool) {
    (step.approver.Some? && step.approver.value != "" && step.approver.value == user) || hasRight
  }

  function Decided(r: Request, user: string, hasRight: bool, decision: Verdict, now: int): Result<Request, Error>
  {
    if r.archived then Err(NotFound)
    else if r.status != Pending then Err(Closed)
    else match Find(r.steps, r.currentStep)
      case None => Err(NoStep)
      case Some(i) =>
        var step := r.steps[i];
        if !MayDecide(step, user, hasRight) then Err(Forbidden)
        else if decision !in {Approved, Rejected, Changes} then Err(Invalid)
        else
          var isLast := r.currentStep >= |r.steps|;
          var decided := Step(step.order, Some(step.approver.GetOr(user)), decision, Some(now));
          Ok(r.(steps := r.steps[i := decided],
                status := if decision == Approved && !isLast then Pending else decision,
                currentStep := if decision == Approved && !isLast then r.currentStep + 1 else r.currentStep))
  }

  function Withdrawn(r: Request, user: string, canManage: bool): Result<Request, Error> {
    if r.status != Pending then Err(Closed)
    else if r.requester != user && !canManage then Err(Forbidden)
    else Ok(r.(status := Cancelled))
  }

  // --------------------------------------------------------------- the record itself

  class ApprovalRequest {
    const requester: string
    var status: Verdict
    var currentStep: nat
    var steps: seq<Step>
    var archived: bool

    function State(): Request
      reads this
    {
      Request(requester, status, currentStep, steps, archived)
    }

    constructor (r: Request)
      ensures State() == r
    {
      requester, status, currentStep, steps, archived := r.requester, r.status, r.currentStep, r.steps, r.archived;
    }

    method Decide(user: string, hasRight: bool, decision: Verdict, now: int) returns (error: Option<Error>)
      modifies this
      ensures State() == After(old(State()), Decided(old(State()), user, hasRight, decision, now))
      ensures error == ErrorOf(Decided(old(State()), user, hasRight, decision, now))
    {
      if archived { return Some(NotFound); }
      if status != Pending { return Some(Closed); }
      var found := Find(steps, currentStep);
      if found.None? { return Some(NoStep); }
      var step := steps[found.value];
      if !MayDecide(step, user, hasRight) { return Some(Forbidden); }
      if decision !in {Approved, Rejected, Changes} { return Some(Invalid); }
      var isLast := currentStep >= |steps|;
      var approver := if step.approver.Some? then step.approver else Some(user);
      steps := steps[found.value := step.(status := decision, decidedAt := Some(now), approver := approver)];
      if decision != Approved || isLast {
        status := decision;
      } else {
        currentStep := currentStep + 1;
      }
      return None;
    }

    method Cancel(user: string, canManage: bool) returns (error: Option<Error>)
      modifies this`status
      ensures State() == After(old(State()), Withdrawn(old(State()), user, canManage))
      ensures error == ErrorOf(Withdrawn(old(State()), user, canManage))
    {
      if status != Pending { return Some(Closed); }
      if requester != user && !canManage { return Some(Forbidden); }
      status := Cancelled;
      return None;
    }
  }

  // ------------------------------------------------------------------------- runs

  datatype Op =
    | Decide(user: string, hasRight: bool, decision: Verdict, now: int)
    | Cancel(user: string, canManage: bool)

  function Perform(r: Request, op: Op): Result<Request, Error> {
    match op
    case Decide(user, hasRight, decision, now) => Decided(r, user, hasRight, decision, now)
    case Cancel(user, canManage) => Withdrawn(r, user, canManage)
  }

  function Run(r: Request, ops: seq<Op>): Request
    decreases |ops|
  {
    if ops == [] then r else Run(After(r, Perform(r, ops[0])), ops[1..])
  }

  /** Steps before the current one are approved, later ones pending, and the current one tells the request's status. */
  predicate Inv(r: Request) {
    && 1 <= r.currentStep <= |r.steps|
    && (forall i :: 0 <= i < |r.steps| ==> r.steps[i].order == i + 1)
    && (forall i :: 0 <= i < r.currentStep - 1 ==> r.steps[i].status == Approved)
    && (forall i :: r.currentStep <= i < |r.steps| ==> r.steps[i].status == Pending)
    && r.steps[r.currentStep - 1].status == (if r.status == Cancelled then Pending else r.status)
    && (r.status == Approved ==> r.currentStep == |r.steps|)
    && (forall i :: 0 <= i < |r.steps| ==> (r.steps[i].decidedAt.Some? <==> r.steps[i].status != Pending))
  }

  lemma CreatedInv(requester: string, approvers: seq<string>)
    ensures Created(requester, approvers).Ok? ==> Inv(Created(requester, approvers).value)
  {
  }

  /** The step acted on is the current one. */
  lemma FoundIsCurrent(r: Request)
    requires Inv(r)
    ensures Find(r.steps, r.currentStep) == Some(r.currentStep - 1)
  {
    assert r.steps[r.currentStep - 1].order == r.currentStep;
  }

  lemma StepKeepsInv(r: Request, op: Op)
    requires Inv(r)
    ensures Inv(After(r, Perform(r, op)))
  {
    FoundIsCurrent(r);
  }

  lemma {:induction false} RunKeepsInv(r: Request, ops: seq<Op>)
    requires Inv(r)
    ensures Inv(Run(r, ops))
    decreases |ops|
  {
    if ops != [] {
      StepKeepsInv(r, ops[0]);
      RunKeepsInv(After(r, Perform(r, ops[0])), ops[1..]);
    }
  }

  /** In every reachable request: approved exactly when every step is, and never out of order. */
  lemma SequentialApproval(requester: string, approvers: seq<string>, ops: seq<Op>)
    requires Created(requester, approvers).Ok?
    ensures var r := Run(Created(requester, approvers).value, ops);
            && Inv(r)
            && (r.status == Approved <==> forall i :: 0 <= i < |r.steps| ==> r.steps[i].status == Approved)
            && (forall i, j :: 0 <= i < j < |r.steps| && r.steps[j].status != Pending ==> r.steps[i].status == Approved)
  {
    CreatedInv(requester, approvers);
    RunKeepsInv(Created(requester, approvers).value, ops);
  }

  lemma {:induction false} ClosedStaysClosed(r: Request, ops: seq<Op>)
    requires r.status != Pending
    ensures Run(r, ops) == r
    decreases |ops|
  {
    if ops != [] { ClosedStaysClosed(r, ops[1..]); }
  }

  /** Each step is decided at most once: a decided step is never written again. */
  lemma {:induction false} DecidedOnce(r: Request, ops: seq<Op>, i: nat)
    requires Inv(r) && i < |r.steps| && r.steps[i].status != Pending
    ensures i < |Run(r, ops).steps| && Run(r, ops).steps[i] == r.steps[i]
    decreases |ops|
  {
    if ops != [] {
      StepKeepsInv(r, ops[0]);
      FoundIsCurrent(r);
      DecidedOnce(After(r, Perform(r, ops[0])), ops[1..], i);
    }
  }

  // --------------------------------------------------------- counting the decisions

  function CountDecided(steps: seq<Step>): nat {
    if steps == [] then 0 else (if steps[0].status != Pending then 1 else 0) + CountDecided(steps[1..])
  }

  /** How many decisions a run gets accepted. */
  function Accepted(r: Request, ops: seq<Op>): nat
    decreases |ops|
  {
    if ops == [] then 0
    else (if ops[0].Decide? && Perform(r, ops[0]).Ok? then 1 else 0) + Accepted(After(r, Perform(r, ops[0])), ops[1..])
  }

  lemma {:induction false} CountAfterDecision(steps: seq<Step>, i: nat, decided: Step)
    requires i < |steps| && steps[i].status == Pending && decided.status != Pending
    ensures CountDecided(steps[i := decided]) == CountDecided(steps) + 1
    decreases |steps|
  {
    if i == 0 {
      assert steps[0 := decided][1..] == steps[1..];
    } else {
      assert steps[i := decided][1..] == steps[1..][i - 1 := decided];
      CountAfterDecision(steps[1..], i - 1, decided);
    }
  }

  lemma {:induction false} CountIsBounded(steps: seq<Step>)
    ensures CountDecided(steps) <= |steps|
  {
    if steps != [] { CountIsBounded(steps[1..]); }
  }

  /** Every accepted decision decides one more step, so a request of n steps takes at most n of them. */
  lemma {:induction false} AtMostOneDecisionAStep(r: Request, ops: seq<Op>)
    requires Inv(r)
    ensures Accepted(r, ops) == CountDecided(Run(r, ops).steps) - CountDecided(r.steps)
    ensures CountDecided(r.steps) + Accepted(r, ops) <= |r.steps|
    decreases |ops|
  {
    CountIsBounded(r.steps);
    if ops != [] {
      StepKeepsInv(r, ops[0]);
      FoundIsCurrent(r);
      var r' := After(r, Perform(r, ops[0]));
      if ops[0].Decide? && Perform(r, ops[0]).Ok? {
        CountAfterDecision(r.steps, r.currentStep - 1, r'.steps[r.currentStep - 1]);
      }
      AtMostOneDecisionAStep(r', ops[1..]);
    }
  }

  // ------------------------------------------------------ what was decided, and by whom

  /** A request is created for a list of named approvers: one pending step each, in order, starting at the first. */
  lemma CreateExactly(requester: string, approvers: seq<string>)
    ensures Created(requester, approvers).Ok? <==> |approvers| > 0 && forall i :: 0 <= i < |approvers| ==> approvers[i] != ""
    ensures Created(requester, approvers).Ok? ==>
              var r := Created(requester, approvers).value;
              && r.requester == requester && r.status == Pending && r.currentStep == 1 && !r.archived && |r.steps| == |approvers|
              && forall i :: 0 <= i < |approvers| ==>
                   && r.steps[i].order == i + 1 && r.steps[i].approver == Some(approvers[i])
                   && r.steps[i].status == Pending && r.steps[i].decidedAt.None?
  {
  }

  function Current(r: Request): Step
    requires Inv(r)
  {
    r.steps[r.currentStep - 1]
  }

  /** The named approver of the current step may decide it, and so may a holder of the right; nobody else. */
  predicate Entitled(r: Request, user: string, hasRight: bool)
    requires Inv(r)
  {
    hasRight || (user != "" && Current(r).approver == Some(user))
  }

  /** The current step takes the decision, its time and its approver; no other step changes. */
  predicate Records(r: Request, after: Request, user: string, decision: Verdict, now: int)
    requires Inv(r)
  {
    && |after.steps| == |r.steps|
    && (forall i :: 0 <= i < |r.steps| && i != r.currentStep - 1 ==> after.steps[i] == r.steps[i])
    && var step := after.steps[r.currentStep - 1];
       && step.order == r.currentStep && step.status == decision && step.decidedAt == Some(now)
       && step.approver == if Current(r).approver.Some? then Current(r).approver else Some(user)
  }

  /** A pending request takes one of the three decisions from an entitled user, and nothing else from anyone. */
  lemma DecideExactly(r: Request, user: string, hasRight: bool, decision: Verdict, now: int)
    requires Inv(r)
    ensures Decided(r, user, hasRight, decision, now).Ok? <==>
              !r.archived && r.status == Pending && Entitled(r, user, hasRight) && decision in {Approved, Rejected, Changes}
    ensures Decided(r, user, hasRight, decision, now).Ok? ==>
              var after := Decided(r, user, hasRight, decision, now).value;
              && Records(r, after, user, decision, now) && after.requester == r.requester && !after.archived
              && if decision == Approved && r.currentStep < |r.steps|
                 then after.status == Pending && after.currentStep == r.currentStep + 1
                 else after.status == decision && after.currentStep == r.currentStep
  {
    FoundIsCurrent(r);
  }

  lemma CancelExactly(r: Request, user: string, canManage: bool)
    ensures Withdrawn(r, user, canManage).Ok? <==> r.status == Pending && (canManage || user == r.requester)
    ensures Withdrawn(r, user, canManage).Ok? ==> Withdrawn(r, user, canManage).value == r.(status := Cancelled)
  {
  }

  /** The verdicts of the decided steps, in order. */
  function Verdicts(steps: seq<Step>): seq<Verdict> {
    if steps == [] || steps[0].status == Pending then [] else [steps[0].status] + Verdicts(steps[1..])
  }

  /** The decisions a run gets accepted, in order. */
  function Decisions(r: Request, ops: seq<Op>): seq<Verdict>
    decreases |ops|
  {
    if ops == [] then []
    else Accepts(r, ops[0]) + Decisions(After(r, Perform(r, ops[0])), ops[1..])
  }

  lemma {:induction false} VerdictsAfterDecision(steps: seq<Step>, i: nat, decided: Step)
    requires i < |steps| && decided.status != Pending && steps[i].status == Pending
    requires forall j :: 0 <= j < i ==> steps[j].status != Pending
    requires forall j :: i < j < |steps| ==> steps[j].status == Pending
    ensures Verdicts(steps[i := decided]) == Verdicts(steps) + [decided.status]
    decreases |steps|
  {
    if i == 0 {
      assert steps[0 := decided][1..] == steps[1..];
    } else {
      assert steps[i := decided][1..] == steps[1..][i - 1 := decided];
      VerdictsAfterDecision(steps[1..], i - 1, decided);
    }
  }

  lemma DecisionIsRecorded(r: Request, user: string, hasRight: bool, decision: Verdict, now: int)
    requires Inv(r) && Decided(r, user, hasRight, decision, now).Ok?
    ensures Verdicts(Decided(r, user, hasRight, decision, now).value.steps) == Verdicts(r.steps) + [decision]
  {
    DecideExactly(r, user, hasRight, decision, now);
    var after := Decided(r, user, hasRight, decision, now).value;
    var i := r.currentStep - 1;
    VerdictsAfterDecision(r.steps, i, after.steps[i]);
    assert after.steps == r.steps[i := after.steps[i]];
  }

  function Accepts(r: Request, op: Op): seq<Verdict> {
    if op.Decide? && Perform(r, op).Ok? then [op.decision] else []
  }

  lemma StepIsRecorded(r: Request, op: Op)
    requires Inv(r)
    ensures Verdicts(After(r, Perform(r, op)).steps) == Verdicts(r.steps) + Accepts(r, op)
  {
    assert Verdicts(r.steps) + [] == Verdicts(r.steps);
    if Perform(r, op).Ok? {
      match op
      case Decide(user, hasRight, decision, now) => DecisionIsRecorded(r, user, hasRight, decision, now);
      case Cancel(user, canManage) =>
    }
  }

  /** Over every run, the verdicts on record are those there were, then the accepted decisions, in order. */
  lemma {:induction false} DecisionsAreRecorded(r: Request, ops: seq<Op>)
    requires Inv(r)
    ensures Verdicts(Run(r, ops).steps) == Verdicts(r.steps) + Decisions(r, ops)
    decreases |ops|
  {
    if ops != [] {
      StepKeepsInv(r, ops[0]);
      StepIsRecorded(r, ops[0]);
      DecisionsAreRecorded(After(r, Perform(r, ops[0])), ops[1..]);
      Associate(Verdicts(r.steps), Accepts(r, ops[0]), Decisions(After(r, Perform(r, ops[0])), ops[1..]));
    }
  }

  lemma Associate(a: seq<Verdict>, b: seq<Verdict>, c: seq<Verdict>)
    ensures (a + b) + c == a + (b + c)
  {
  }

  lemma {:induction false} VerdictsAt(steps: seq<Step>, k: nat)
    requires k <= |steps| && forall j :: 0 <= j < |steps| ==> (steps[j].status != Pending <==> j < k)
    ensures |Verdicts(steps)| == k && forall j :: 0 <= j < k ==> Verdicts(steps)[j] == steps[j].status
    decreases |steps|
  {
    if k > 0 { VerdictsAt(steps[1..], k - 1); }
  }

  /** Steps decided so far. */
  function DecidedSteps(r: Request): nat
    requires Inv(r)
  {
    if r.status in {Pending, Cancelled} then r.currentStep - 1 else r.currentStep
  }

  lemma {:induction false} RunKeepsLength(r: Request, ops: seq<Op>)
    requires Inv(r)
    ensures |Run(r, ops).steps| == |r.steps|
    decreases |ops|
  {
    if ops != [] {
      StepKeepsInv(r, ops[0]);
      RunKeepsLength(After(r, Perform(r, ops[0])), ops[1..]);
    }
  }

  /** The steps of `r` carry the decisions `d` in order, and the rest are pending. */
  predicate Carries(r: Request, d: seq<Verdict>) {
    |d| <= |r.steps| && forall i :: 0 <= i < |r.steps| ==> r.steps[i].status == if i < |d| then d[i] else Pending
  }

  lemma RunCarries(r: Request, ops: seq<Op>)
    requires Inv(r) && DecidedSteps(r) == 0
    ensures Inv(Run(r, ops)) && |Decisions(r, ops)| == DecidedSteps(Run(r, ops)) && Carries(Run(r, ops), Decisions(r, ops))
  {
    RunKeepsInv(r, ops);
    DecisionsAreRecorded(r, ops);
    DecidedPrefix(r);
    DecidedPrefix(Run(r, ops));
    assert [] + Decisions(r, ops) == Decisions(r, ops);
  }

  lemma DecidedPrefix(r: Request)
    requires Inv(r)
    ensures |Verdicts(r.steps)| == DecidedSteps(r) && Carries(r, Verdicts(r.steps))
  {
    VerdictsAt(r.steps, DecidedSteps(r));
  }

  /** What a request's status says of the decisions its steps carry. */
  predicate Tells(status: Verdict, d: seq<Verdict>, n: nat) {
    && (forall i :: 0 <= i < |d| - 1 ==> d[i] == Approved)
    && (status == Approved <==> |d| == n && forall i :: 0 <= i < |d| ==> d[i] == Approved)
    && (status == Rejected <==> exists i :: 0 <= i < |d| && d[i] == Rejected)
    && (status == Changes <==> exists i :: 0 <= i < |d| && d[i] == Changes)
  }

  lemma DecisionsTell(r: Request, d: seq<Verdict>)
    requires Inv(r) && |d| == DecidedSteps(r) && Carries(r, d)
    ensures Tells(r.status, d, |r.steps|)
  {
    if r.status !in {Pending, Cancelled} { assert d[|d| - 1] == r.status; }
  }

  /**
   * What becomes of a request is decided by the decisions accepted, in order: it is approved
   * exactly if there was one for each step and all were approvals, rejected or returned for
   * changes exactly if one was that; only the last one can be anything but an approval.
   */
  lemma StatusFollowsDecisions(requester: string, approvers: seq<string>, ops: seq<Op>)
    requires Created(requester, approvers).Ok?
    ensures var r, d := Run(Created(requester, approvers).value, ops), Decisions(Created(requester, approvers).value, ops);
            |r.steps| == |approvers| && Carries(r, d) && Tells(r.status, d, |approvers|)
  {
    var r := Created(requester, approvers).value;
    CreatedInv(requester, approvers);
    RunKeepsLength(r, ops);
    RunCarries(r, ops);
    DecisionsTell(Run(r, ops), Decisions(r, ops));
  }
}
