/** Which records can be brought to an end, and a first run that shows there are live ones. */
module WorkflowOutcomes {
  import opened Common
  import opened History
  import opened WorkflowSpec
  import opened Workflows
  import opened WorkflowRuns

  // ------------------------------------------------------- a run only follows paths

  function SpecOf(s: Store, i: nat): Spec
    requires i < |s.instances| && BoundText(s.definitions, s.instances[i]).Parsed?
  {
    BoundText(s.definitions, s.instances[i]).spec
  }

  /** Instance `i` has moved along a path of the spec it is bound to, which is still the same. */
  ghost predicate Advanced(s: Store, t: Store, i: nat)
    requires i < |s.instances|
  {
    && BoundText(s.definitions, s.instances[i]).Parsed? && i < |t.instances|
    && BoundText(t.definitions, t.instances[i]) == BoundText(s.definitions, s.instances[i])
    && Reaches(SpecOf(s, i), s.instances[i].stage, t.instances[i].stage)
  }

  lemma MovedHops(inst: Instance, spec: Spec, area: string, q: Request)
    requires Transitioned(inst, Parsed(spec), area, q).Ok?
    ensures Hop(spec, inst.stage, Transitioned(inst, Parsed(spec), area, q).value.stage)
  {
    var t := WithTransitionKey(TransitionsFrom(spec, inst.stage), q.transition).value;
    assert t in TransitionsFrom(spec, inst.stage) && StageByKey(spec, t.to).value.key == t.to;
  }

  lemma PerformMovesOne(s: Store, j: nat, q: Request)
    requires j < |s.instances| && BoundText(s.definitions, s.instances[j]).Parsed?
    ensures var inst := s.instances[j];
            var r := Transitioned(inst, Parsed(SpecOf(s, j)), AreaOf(s, inst), q);
            Step(s, Perform(j, q)) == if r.Ok? then s.(instances := s.instances[j := r.value]) else s
  {
    assert Parsed(SpecOf(s, j)) == BoundText(s.definitions, s.instances[j]);
  }

  lemma OthersMoveNone(s: Store, op: Op, i: nat)
    requires !op.Perform? && i < |s.instances|
    ensures i < |Step(s, op).instances| && Step(s, op).instances[i].stage == s.instances[i].stage
  {
    match op
    case Start(_, _, _, _) => StartMovesNone(s, op, i);
    case Escalate(_, _) => EscalateMovesNone(s, op, i);
    case _ => AuthoringMovesNone(s, op);
  }

  lemma AuthoringMovesNone(s: Store, op: Op)
    requires op.Create? || op.Save? || op.Open? || op.Activate? || op.Archive?
    ensures Step(s, op).instances == s.instances
  {
  }

  lemma StartMovesNone(s: Store, op: Op, i: nat)
    requires op.Start? && i < |s.instances|
    ensures i < |Step(s, op).instances| && Step(s, op).instances[i] == s.instances[i]
  {
  }

  lemma EscalateMovesNone(s: Store, op: Op, i: nat)
    requires op.Escalate? && i < |s.instances|
    ensures i < |Step(s, op).instances| && Step(s, op).instances[i].stage == s.instances[i].stage
  {
  }

  /** One operation leaves a record's stage alone or takes it along one transition. */
  lemma StageSteps(s: Store, op: Op, i: nat)
    requires Inv(s) && i < |s.instances|
    ensures i < |Step(s, op).instances| && BoundText(s.definitions, s.instances[i]).Parsed?
    ensures Step(s, op).instances[i].stage == s.instances[i].stage
            || Hop(SpecOf(s, i), s.instances[i].stage, Step(s, op).instances[i].stage)
  {
    BoundInForce(s, i);
    if !op.Perform? { OthersMoveNone(s, op, i); }
    else if op.i == i { PerformSteps(s, i, op.q); }
    else { PerformMovesNoOther(s, op.i, op.q, i); }
  }

  lemma PerformMovesNoOther(s: Store, j: nat, q: Request, i: nat)
    requires i < |s.instances| && i != j
    ensures i < |Step(s, Perform(j, q)).instances| && Step(s, Perform(j, q)).instances[i] == s.instances[i]
  {
  }

  lemma PerformSteps(s: Store, i: nat, q: Request)
    requires i < |s.instances| && BoundText(s.definitions, s.instances[i]).Parsed?
    ensures i < |Step(s, Perform(i, q)).instances|
    ensures Step(s, Perform(i, q)).instances[i].stage == s.instances[i].stage
            || Hop(SpecOf(s, i), s.instances[i].stage, Step(s, Perform(i, q)).instances[i].stage)
  {
    var inst, spec, area := s.instances[i], SpecOf(s, i), AreaOf(s, s.instances[i]);
    PerformMovesOne(s, i, q);
    if Transitioned(inst, Parsed(spec), area, q).Ok? { MovedHops(inst, spec, area, q); }
  }

  lemma StepAdvances(s: Store, op: Op, i: nat)
    requires Inv(s) && i < |s.instances|
    ensures Advanced(s, Step(s, op), i)
  {
    StageSteps(s, op, i);
    StepPreserves(s, op);
    BoundInForce(s, i);
    SpecIsConstant(s, Step(s, op), i);
    var spec, a, b := SpecOf(s, i), s.instances[i].stage, Step(s, op).instances[i].stage;
    ReachesSelf(spec, a);
    if Hop(spec, a, b) { ReachesHop(spec, a, a, b); }
  }

  lemma {:induction false} RunAdvances(s: Store, ops: seq<Op>, i: nat)
    requires Inv(s) && i < |s.instances|
    ensures Advanced(s, Run(s, ops), i)
    decreases |ops|
  {
    BoundInForce(s, i);
    if ops == [] {
      ReachesSelf(SpecOf(s, i), s.instances[i].stage);
    } else {
      var t := Step(s, ops[0]);
      StepAdvances(s, ops[0], i);
      StepKeepsInv(s, ops[0]);
      RunAdvances(t, ops[1..], i);
      ReachesTransitive(SpecOf(s, i), s.instances[i].stage, t.instances[i].stage, Run(s, ops).instances[i].stage);
    }
  }

  // --------------------------------------------------------- every path can be followed

  /** A request that holds the right and meets every gate. */
  function Ask(stage: Stage, t: Transition, area: string): Request {
    Request(t.key, {t.permission.GetOr(area + ".edit")}, map f | f in stage.requiredFields :: "x",
            |stage.requiredDocuments|, stage.requiredApprovals, 0)
  }

  lemma AskIsReady(inst: Instance, spec: Spec, area: string, t: Transition)
    requires StageByKey(spec, inst.stage).Some?
    ensures Ready(inst, Parsed(spec), area, t, Ask(StageByKey(spec, inst.stage).value, t, area))
  {
    var stage := StageByKey(spec, inst.stage).value;
    var q := Ask(stage, t, area);
    assert TrimStart("x") == "x" && TrimEnd("x") == "x";
    forall f | f in stage.requiredFields
      ensures Trim(Collected(inst.data + q.fields, f)) != ""
    {
      assert f in q.fields && (inst.data + q.fields)[f] == "x";
    }
  }

  lemma AskSucceeds(inst: Instance, spec: Spec, area: string, t: Transition)
    requires GraphValid(spec) && inst.status == Active && t in TransitionsFrom(spec, inst.stage)
    ensures StageByKey(spec, inst.stage).Some?
    ensures var r := Transitioned(inst, Parsed(spec), area, Ask(StageByKey(spec, inst.stage).value, t, area));
            r.Ok? && r.value.stage == t.to
  {
    var q := Ask(StageByKey(spec, inst.stage).value, t, area);
    AskIsReady(inst, spec, area, t);
    ValidNeverStrands(spec, inst.stage);
    OneWithKey(spec, t, WithTransitionKey(TransitionsFrom(spec, inst.stage), q.transition).value);
    RequestSucceeds(inst, spec, area, t, q);
  }

  lemma HopIsAsked(s: Store, i: nat, b: string) returns (q: Request)
    requires Inv(s) && i < |s.instances| && BoundText(s.definitions, s.instances[i]).Parsed?
    requires Hop(SpecOf(s, i), s.instances[i].stage, b)
    ensures i < |Step(s, Perform(i, q)).instances| && Step(s, Perform(i, q)).instances[i].stage == b
  {
    var inst, spec, area := s.instances[i], SpecOf(s, i), AreaOf(s, s.instances[i]);
    BoundInForce(s, i);
    var t :| t in TransitionsFrom(spec, inst.stage) && t.to == b;
    assert !Terminal(spec, inst.stage);
    q := Ask(StageByKey(spec, inst.stage).value, t, area);
    AskSucceeds(inst, spec, area, t);
    PerformMovesOne(s, i, q);
  }

  predicate OnlyPerforms(ops: seq<Op>, i: nat) {
    forall k :: 0 <= k < |ops| ==> ops[k].Perform? && ops[k].i == i
  }

  ghost predicate Completes(s: Store, ops: seq<Op>, i: nat) {
    i < |Run(s, ops).instances| && Run(s, ops).instances[i].status == Completed
  }

  lemma {:induction false} PathCompletes(s: Store, i: nat, path: seq<string>) returns (ops: seq<Op>)
    requires Inv(s) && i < |s.instances| && BoundText(s.definitions, s.instances[i]).Parsed?
    requires IsPath(SpecOf(s, i), path) && path[0] == s.instances[i].stage && Terminal(SpecOf(s, i), path[|path| - 1])
    ensures OnlyPerforms(ops, i) && Completes(s, ops, i)
    decreases |path|
  {
    BoundInForce(s, i);
    if |path| == 1 { return []; }
    assert Hop(SpecOf(s, i), path[0], path[0 + 1]);
    var q := HopIsAsked(s, i, path[1]);
    var op := Perform(i, q);
    StepKeepsInv(s, op);
    StepAdvances(s, op, i);
    TailIsPath(SpecOf(s, i), path);
    var rest := PathCompletes(Step(s, op), i, path[1..]);
    ops := [op] + rest;
    FirstThen(s, op, rest, i);
  }

  lemma FirstThen(s: Store, op: Op, rest: seq<Op>, i: nat)
    requires op.Perform? && op.i == i && OnlyPerforms(rest, i) && Completes(Step(s, op), rest, i)
    ensures OnlyPerforms([op] + rest, i) && Completes(s, [op] + rest, i)
  {
    assert ([op] + rest)[1..] == rest;
  }

  lemma TailIsPath(spec: Spec, path: seq<string>)
    requires IsPath(spec, path) && |path| > 1
    ensures IsPath(spec, path[1..])
  {
    forall k | 0 <= k < |path[1..]| - 1
      ensures Hop(spec, path[1..][k], path[1..][k + 1])
    {
      assert Hop(spec, path[k + 1], path[k + 1 + 1]);
    }
  }

  /**
   * A record can still be completed, by any run of any operations, exactly when its bound spec
   * leads from its stage to a terminal one; and then performing transitions on it is enough.
   */
  lemma CompletesExactly(s: Store, i: nat)
    requires Inv(s) && i < |s.instances|
    ensures BoundText(s.definitions, s.instances[i]).Parsed?
    ensures (exists ops :: Completes(s, ops, i)) <==> ReachesTerminal(SpecOf(s, i), s.instances[i].stage)
    ensures (exists ops :: OnlyPerforms(ops, i) && Completes(s, ops, i)) <==> ReachesTerminal(SpecOf(s, i), s.instances[i].stage)
  {
    BoundInForce(s, i);
    var spec, a := SpecOf(s, i), s.instances[i].stage;
    if ops :| Completes(s, ops, i) {
      RunAdvances(s, ops, i);
      RunKeepsInv(s, ops);
      BoundInForce(Run(s, ops), i);
      assert Reaches(spec, a, Run(s, ops).instances[i].stage);
    }
    if ReachesTerminal(spec, a) {
      var k :| Reaches(spec, a, k) && Terminal(spec, k);
      var path :| IsPath(spec, path) && path[0] == a && path[|path| - 1] == k;
      var ops := PathCompletes(s, i, path);
    }
  }

  // ---------------------------------------------------------- what a trap costs a record

  /** In a trap, a record stays live over every run. */
  lemma TrappedForever(s: Store, ops: seq<Op>, i: nat, start: string, trap: set<string>)
    requires Inv(s) && i < |s.instances| && BoundText(s.definitions, s.instances[i]).Parsed?
    requires TrapSet(SpecOf(s, i), start, trap) && s.instances[i].stage in trap
    ensures i < |Run(s, ops).instances| && Run(s, ops).instances[i].status == Active
  {
    RunAdvances(s, ops, i);
    TrappedNeverFinishes(SpecOf(s, i), start, trap, s.instances[i].stage);
    CompletesExactly(s, i);
    assert !Completes(s, ops, i);
  }

  lemma {:induction false} RouteReaches(spec: Spec, log: seq<LogRow>)
    requires IsRoute(spec, log)
    ensures Reaches(spec, InitialStage(spec).value.key, log[|log| - 1].to)
    decreases |log|
  {
    var start, n := InitialStage(spec).value.key, |log| - 1;
    if n == 0 {
      ReachesSelf(spec, start);
    } else {
      forall k | 1 <= k < n
        ensures Logged(spec, log[..n][k - 1].to, log[..n][k])
      {
        assert Logged(spec, log[k - 1].to, log[k]);
      }
      RouteReaches(spec, log[..n]);
      assert Logged(spec, log[n - 1].to, log[n]);
      ReachesHop(spec, start, log[n - 1].to, log[n].to);
    }
  }

  /** Without a trap in its spec, every record of every reachable store can be completed. */
  lemma UntrappedCanComplete(s: Store, i: nat)
    requires Inv(s) && i < |s.instances|
    ensures BoundText(s.definitions, s.instances[i]).Parsed? && InitialStage(SpecOf(s, i)).Some?
    ensures !(exists trap :: TrapSet(SpecOf(s, i), InitialStage(SpecOf(s, i)).value.key, trap)) ==>
              exists ops :: OnlyPerforms(ops, i) && Completes(s, ops, i)
  {
    BoundInForce(s, i);
    var spec := SpecOf(s, i);
    RouteReaches(spec, s.instances[i].log);
    FinishesExactly(spec, InitialStage(spec).value.key);
    CompletesExactly(s, i);
  }

  // ------------------------------------------------------------------- a first run

  lemma StarterJoins()
    ensures |STARTER_SPEC.stages| == 4 && |STARTER_SPEC.transitions| == 4
    ensures Joins(STARTER_SPEC, 0, 0, 1) && Joins(STARTER_SPEC, 1, 1, 2) && Joins(STARTER_SPEC, 2, 1, 3) && Joins(STARTER_SPEC, 3, 1, 0)
  {
  }

  lemma StarterStages()
    ensures |STARTER_SPEC.stages| == 4
    ensures forall i :: 0 <= i < 4 ==>
              var s := STARTER_SPEC.stages[i];
              (s.isInitial <==> i == 0) && (s.isTerminal <==> i >= 2) && s.responsibleRoles == [] && s.escalation.None?
  {
  }

  lemma StarterKeys()
    ensures DistinctStages(STARTER_SPEC)
  {
    var stages := STARTER_SPEC.stages;
    assert |stages[0].key| == 5 && |stages[1].key| == 9 && |stages[2].key| == 8 && |stages[3].key| == 8;
    assert stages[2].key[0] == 'a' && stages[3].key[0] == 'r';
  }

  lemma StarterTransitionKeys()
    ensures |STARTER_SPEC.transitions| == 4 && DistinctTransitions(STARTER_SPEC)
    ensures forall i :: 0 <= i < 4 ==> STARTER_SPEC.transitions[i].permission.None?
  {
    var ts := STARTER_SPEC.transitions;
    assert ts[0].key[0] == 's' && ts[1].key[0] == 'a' && ts[2].key[0] == 'r' && ts[3].key[0] == 'r';
    assert ts[2].key[2] == 'j' && ts[3].key[2] == 'v';
  }

  lemma StarterIsPlain()
    ensures Plain(STARTER_SPEC)
  {
    StarterJoins();
    StarterStages();
    StarterKeys();
    StarterTransitionKeys();
    NamedJoinsArePlain(STARTER_SPEC);
  }

  lemma NamedJoinsArePlain(spec: Spec)
    requires |spec.stages| == 4 && |spec.transitions| == 4 && DistinctStages(spec) && DistinctTransitions(spec)
    requires forall i :: 0 <= i < 4 ==>
               var s := spec.stages[i];
               (s.isInitial <==> i == 0) && (s.isTerminal <==> i >= 2) && s.responsibleRoles == [] && s.escalation.None?
    requires forall i :: 0 <= i < 4 ==> spec.transitions[i].permission.None?
    requires Joins(spec, 0, 0, 1) && Joins(spec, 1, 1, 2) && Joins(spec, 2, 1, 3) && Joins(spec, 3, 1, 0)
    ensures Plain(spec)
  {
  }

  /** The starter spec is valid whatever the catalog, so a fresh definition can go into force as it is. */
  lemma StarterIsValid(refs: Refs)
    ensures Valid(STARTER_SPEC, refs)
  {
    StarterJoins();
    StarterStages();
    StarterIsPlain();
    TwoJoinsFinish(STARTER_SPEC, 0, 1, 1, 2);
    PlainIsValid(STARTER_SPEC, refs);
  }

  lemma TwoJoinsFinish(spec: Spec, t: nat, b: nat, u: nat, c: nat)
    requires DistinctStages(spec) && Joins(spec, t, 0, b) && Joins(spec, u, b, c) && spec.stages[c].isTerminal
    ensures ReachesTerminal(spec, spec.stages[0].key)
  {
    var start := spec.stages[0].key;
    JoinHops(spec, t, 0, b);
    JoinHops(spec, u, b, c);
    ReachesSelf(spec, start);
    ReachesHop(spec, start, start, spec.stages[b].key);
    ReachesHop(spec, start, spec.stages[b].key, spec.stages[c].key);
    KeyAt(spec, c);
    assert Terminal(spec, spec.stages[c].key);
  }

  lemma ThreeSteps(s: Store, a: Op, b: Op, c: Op)
    ensures Run(s, [a, b, c]) == Step(Step(Step(s, a), b), c)
  {
    assert [a, b, c][1..] == [b, c] && [b, c][1..] == [c] && [c][1..] == [];
    assert Run(s, [a, b, c]) == Run(Step(s, a), [b, c]) == Run(Step(Step(s, a), b), [c]);
  }

  predicate JustStarted(s: Store, spec: Spec, entity: Entity) {
    && |s.instances| == 1 && s.instances[0].entity == entity && s.instances[0].status == Active
    && BoundText(s.definitions, s.instances[0]) == Parsed(spec)
    && InitialStage(spec).Some? && s.instances[0].stage == InitialStage(spec).value.key
  }

  /** From nothing, a definition can be created, put into force unchanged and started: reachable stores have live instances. */
  lemma FreshWorkflowStarts(key: string, area: string, refs: Refs, entity: Entity, now: int)
    ensures var s := Run(Store([], []), [Create(key, area, true), Activate(0, 0, true, refs), Start(entity, ById(0), true, now)]);
            Inv(s) && JustStarted(s, STARTER_SPEC, entity)
  {
    var a, b, c := Create(key, area, true), Activate(0, 0, true, refs), Start(entity, ById(0), true, now);
    RunKeepsInv(Store([], []), [a, b, c]);
    ThreeSteps(Store([], []), a, b, c);
    FreshCreates(key, area);
    StarterActivates(key, area, refs);
    StarterBegins();
    ThenStarts(Store([Fresh(key, area, Parsed(STARTER_SPEC))], []), b, InUse(key, area, Parsed(STARTER_SPEC)), STARTER_SPEC, entity, now);
  }

  lemma StarterActivates(key: string, area: string, refs: Refs)
    ensures VersionActivated(Store([Fresh(key, area, Parsed(STARTER_SPEC))], []), 0, 0, true, refs) ==
            Ok(Store([InUse(key, area, Parsed(STARTER_SPEC))], []))
  {
    StarterIsValid(refs);
    FreshActivates(key, area, Parsed(STARTER_SPEC), refs);
  }

  lemma StarterBegins()
    ensures InitialStage(STARTER_SPEC).Some? && !InitialStage(STARTER_SPEC).value.isTerminal
  {
    assert InitialStage(STARTER_SPEC) == Some(STARTER_SPEC.stages[0]);
  }

  lemma ThenStarts(s: Store, op: Op, def: Definition, spec: Spec, entity: Entity, now: int)
    requires Outcome(s, op) == Ok(Store([def], [])) && !def.archived && def.versions == [Version(1, Current, Parsed(spec))]
    requires InitialStage(spec).Some? && !InitialStage(spec).value.isTerminal
    ensures JustStarted(Step(Step(s, op), Start(entity, ById(0), true, now)), spec, entity)
  {
    FreshBinds(Store([def], []), spec, entity, now);
  }

  function Fresh(key: string, area: string, text: SpecText): Definition {
    Definition(key, area, Drafted, false, None, [Version(1, Draft, text)])
  }

  function InUse(key: string, area: string, text: SpecText): Definition {
    Definition(key, area, Activated, false, Some(0), [Version(1, Current, text)])
  }

  lemma FreshCreates(key: string, area: string)
    ensures Created(Store([], []), key, area, true) == Ok(Store([Fresh(key, area, Parsed(STARTER_SPEC))], []))
  {
    assert [] + [Fresh(key, area, Parsed(STARTER_SPEC))] == [Fresh(key, area, Parsed(STARTER_SPEC))];
  }

  lemma FreshActivates(key: string, area: string, text: SpecText, refs: Refs)
    requires Activatable(text, refs)
    ensures VersionActivated(Store([Fresh(key, area, text)], []), 0, 0, true, refs) ==
            Ok(Store([InUse(key, area, text)], []))
  {
    var def := Fresh(key, area, text);
    var s := Store([def], []);
    var def' := def.(versions := Promoted(def.versions, 0), status := Activated, current := Some(0));
    assert Refusal(s, 0, true).None? && s.definitions[0] == def;
    assert Promoted(def.versions, 0) == [Version(1, Current, text)];
    assert s.definitions[0 := def'] == [def'];
  }

  lemma FreshBinds(s: Store, spec: Spec, entity: Entity, now: int)
    requires |s.definitions| == 1 && !s.definitions[0].archived && s.instances == []
    requires s.definitions[0].versions == [Version(1, Current, Parsed(spec))]
    requires InitialStage(spec).Some? && !InitialStage(spec).value.isTerminal
    ensures JustStarted(Step(s, Start(entity, ById(0), true, now)), spec, entity)
  {
    assert Latest(s.definitions[0].versions, {Current}) == Some(0);
    assert !Governed(s, entity) && Lookup(s, ById(0)) == Some(0);
    var t := Step(s, Start(entity, ById(0), true, now));
    assert t.instances == [] + [NewInstance(0, 0, entity, InitialStage(spec).value, now)];
    assert t.definitions == s.definitions;
  }
}
