/** What holds of the workflow engine over every run of its service functions. */
module WorkflowRuns {
  import opened Common
  import opened History
  import opened WorkflowSpec
  import opened Workflows

  datatype Op =
    | Create(key: string, area: string, allowed: bool)
    | Save(d: nat, allowed: bool, text: SpecText)
    | Open(d: nat, allowed: bool)
    | Activate(d: nat, v: nat, allowed: bool, refs: Refs)
    | Archive(d: nat, allowed: bool)
    | Start(entity: Entity, ref: DefinitionRef, allowed: bool, now: int)
    | Perform(i: nat, q: Request)
    | Escalate(batch: set<nat>, now: int)

  ghost function Outcome(s: Store, op: Op): Result<Store, Error> {
    match op
    case Create(key, area, allowed) => Created(s, key, area, allowed)
    case Save(d, allowed, text) => DraftSaved(s, d, allowed, text)
    case Open(d, allowed) => RevisionOpened(s, d, allowed)
    case Activate(d, v, allowed, refs) => VersionActivated(s, d, v, allowed, refs)
    case Archive(d, allowed) => DefinitionArchived(s, d, allowed)
    case Start(entity, ref, allowed, now) => Started(s, entity, ref, allowed, now)
    case Perform(i, q) => Performed(s, i, q)
    case Escalate(batch, now) => Ok(Escalated(s, batch, now))
  }

  ghost function Step(s: Store, op: Op): Store {
    After(s, Outcome(s, op))
  }

  ghost function Run(s: Store, ops: seq<Op>): Store
    decreases |ops|
  {
    if ops == [] then s else Run(Step(s, ops[0]), ops[1..])
  }

  // ------------------------------------------------------------------- the invariant

  ghost predicate InForce(text: SpecText) {
    text.Parsed? && GraphValid(text.spec)
  }

  /**
   * Versions are numbered 1..n with statuses `draft` or `retired* active draft?`; what has left
   * draft parsed and was valid; and the definition points at its active version.
   */
  ghost predicate DefinitionOk(d: Definition) {
    && Good(d.versions) && d.versions != []
    && (forall i :: 0 <= i < |d.versions| ==>
          d.versions[i].status != Review && (d.versions[i].status != Draft ==> InForce(d.versions[i].content)))
    && (if d.current.Some? then d.current.value < |d.versions| && d.versions[d.current.value].status == Current
        else |d.versions| == 1 && d.versions[0].status == Draft)
  }

  predicate Logged(spec: Spec, from: string, row: LogRow) {
    row.from == Some(from) &&
    exists t :: t in TransitionsFrom(spec, from) && t.key == row.transition && t.to == row.to
  }

  /** The log starts at the initial stage, and every later row is a transition of the spec from where the last one led. */
  predicate IsRoute(spec: Spec, log: seq<LogRow>) {
    && log != [] && InitialStage(spec).Some?
    && log[0] == LogRow(None, InitialStage(spec).value.key, "start")
    && forall i :: 1 <= i < |log| ==> Logged(spec, log[i - 1].to, log[i])
  }

  /** Replaying a log from nothing: each row must leave the stage reached so far. */
  function Replay(log: seq<LogRow>): Option<string> {
    if log == [] then None
    else if log[|log| - 1].from == Replay(log[..|log| - 1]) then Some(log[|log| - 1].to)
    else None
  }

  predicate InstanceOk(spec: Spec, inst: Instance) {
    && IsRoute(spec, inst.log) && inst.log[|inst.log| - 1].to == inst.stage
    && StageByKey(spec, inst.stage).Some? && (inst.status == Completed <==> Terminal(spec, inst.stage))
    && (inst.status == Completed <==> inst.completedAt.Some?)
    && inst.escalations + (if inst.escalatedAt.None? then 1 else 0) <= |inst.log|
    && EscalationDue(spec, inst) && LastGateMet(spec, inst) && DeadlineKept(spec, inst)
  }

  /** A live instance has a deadline exactly while its stage has one. */
  predicate DeadlineKept(spec: Spec, inst: Instance) {
    inst.status == Active ==>
      && StageByKey(spec, inst.stage).Some?
      && (inst.dueAt.Some? <==> StageByKey(spec, inst.stage).value.slaHours.GetOr(0.0) != 0.0)
  }

  /** A standing escalation is of a stage that escalates, after its deadline. */
  predicate EscalationDue(spec: Spec, inst: Instance) {
    inst.escalatedAt.Some? ==>
      && inst.dueAt.Some? && inst.dueAt.value < inst.escalatedAt.value
      && StageByKey(spec, inst.stage).Some? && StageByKey(spec, inst.stage).value.escalation.Some?
  }

  /** The data still fills every field that the stage left last requires. */
  predicate LastGateMet(spec: Spec, inst: Instance) {
    inst.log != [] && inst.log[|inst.log| - 1].from.Some? ==>
      var left := StageByKey(spec, inst.log[|inst.log| - 1].from.value);
      left.Some? && FieldsFilled(left.value, inst.data)
  }

  predicate Bound(defs: seq<Definition>, inst: Instance) {
    && inst.definition < |defs| && inst.version < |defs[inst.definition].versions|
    && defs[inst.definition].versions[inst.version].status in {Past, Current}
    && BoundText(defs, inst).Parsed? && InstanceOk(BoundText(defs, inst).spec, inst)
    && (defs[inst.definition].archived ==> inst.status == Completed)
  }

  ghost predicate DefinitionsInv(defs: seq<Definition>) {
    && (forall d :: 0 <= d < |defs| ==> DefinitionOk(defs[d]))
    && (forall c, d :: 0 <= c < d < |defs| ==> defs[c].key != defs[d].key)
  }

  predicate InstancesInv(defs: seq<Definition>, insts: seq<Instance>) {
    && (forall i :: 0 <= i < |insts| ==> Bound(defs, insts[i]))
    && (forall i, j :: 0 <= i < j < |insts| ==> insts[i].entity != insts[j].entity)
  }

  ghost predicate Inv(s: Store) {
    DefinitionsInv(s.definitions) && InstancesInv(s.definitions, s.instances)
  }

  /** The version an instance is bound to was valid when it was activated. */
  lemma BoundInForce(s: Store, i: nat)
    requires Inv(s) && i < |s.instances|
    ensures Bound(s.definitions, s.instances[i]) && InForce(BoundText(s.definitions, s.instances[i]))
  {
    assert Bound(s.definitions, s.instances[i]);
    assert DefinitionOk(s.definitions[s.instances[i].definition]);
  }

  // --------------------------------------------------------------- authoring steps

  /** A definition may replace another when what its instances rely on is kept. */
  ghost predicate Replaces(d: Definition, d': Definition) {
    DefinitionOk(d') && Kept(d.versions, d'.versions, {Draft}) && d'.key == d.key && (d.archived ==> d'.archived)
  }

  lemma KeptVersion(vs: seq<Version<SpecText>>, vs': seq<Version<SpecText>>, v: nat)
    requires Kept(vs, vs', {Draft}) && v < |vs| && vs[v].status != Draft
    ensures v < |vs'| && vs'[v].content == vs[v].content && vs'[v].status != Draft
  {
  }

  lemma BoundSurvives(defs: seq<Definition>, d: nat, d': Definition, inst: Instance)
    requires Bound(defs, inst) && d < |defs| && Replaces(defs[d], d')
    requires d'.archived && inst.definition == d ==> inst.status == Completed
    ensures Bound(defs[d := d'], inst)
  {
    if inst.definition == d {
      KeptVersion(defs[d].versions, d'.versions, inst.version);
      assert d'.versions[inst.version].status != Review;
    }
    assert BoundText(defs[d := d'], inst) == BoundText(defs, inst);
  }

  lemma BoundAppends(defs: seq<Definition>, d: Definition, inst: Instance)
    requires Bound(defs, inst)
    ensures Bound(defs + [d], inst)
  {
    assert (defs + [d])[inst.definition] == defs[inst.definition];
    assert BoundText(defs + [d], inst) == BoundText(defs, inst);
  }

  lemma ReplaceKeepsInv(s: Store, d: nat, d': Definition)
    requires Inv(s) && d < |s.definitions| && Replaces(s.definitions[d], d')
    requires d'.archived ==> !HasLive(s, d)
    ensures Inv(s.(definitions := s.definitions[d := d']))
  {
    forall i | 0 <= i < |s.instances|
      ensures Bound(s.definitions[d := d'], s.instances[i])
    {
      BoundSurvives(s.definitions, d, d', s.instances[i]);
    }
  }

  lemma CreateKeepsInv(s: Store, key: string, area: string, allowed: bool)
    requires Inv(s) && Created(s, key, area, allowed).Ok?
    ensures Inv(Created(s, key, area, allowed).value)
  {
    var def := Definition(key, area, Drafted, false, None, [Version(1, Draft, Parsed(STARTER_SPEC))]);
    assert Created(s, key, area, allowed).value == Store(s.definitions + [def], s.instances);
    assert DefinitionOk(def);
    forall i | 0 <= i < |s.instances|
      ensures Bound(s.definitions + [def], s.instances[i])
    {
      BoundAppends(s.definitions, def, s.instances[i]);
    }
  }

  /** The versions of `d` rewritten to `vs`, with `c` in force. */
  lemma RewriteReplaces(d: Definition, d': Definition)
    requires Good(d'.versions) && Kept(d.versions, d'.versions, {Draft}) && d.versions != []
    requires d'.key == d.key && d'.archived == d.archived
    requires forall i :: 0 <= i < |d'.versions| ==>
               d'.versions[i].status != Review && (d'.versions[i].status != Draft ==> InForce(d'.versions[i].content))
    requires if d'.current.Some? then d'.current.value < |d'.versions| && d'.versions[d'.current.value].status == Current
             else |d'.versions| == 1 && d'.versions[0].status == Draft
    ensures Replaces(d, d')
  {
  }

  lemma DraftReplaces(def: Definition, i: nat, text: SpecText)
    requires DefinitionOk(def) && i < |def.versions| && def.versions[i].status == Draft
    ensures Replaces(def, def.(versions := def.versions[i := def.versions[i].(content := text)]))
  {
    var was, vs := def.versions, def.versions[i := def.versions[i].(content := text)];
    assert forall j :: 0 <= j < |vs| ==> vs[j].status == was[j].status && vs[j].number == was[j].number;
    ReplacedKeeps(was, i, vs, {Draft});
    forall j | 0 <= j < |vs|
      ensures vs[j].status != Review && (vs[j].status != Draft ==> InForce(vs[j].content))
    {
      if j != i { assert vs[j] == was[j]; }
    }
    RewriteReplaces(def, def.(versions := vs));
  }

  lemma SaveReplaces(s: Store, d: nat, allowed: bool, text: SpecText)
    requires Inv(s) && DraftSaved(s, d, allowed, text).Ok?
    ensures Replaces(s.definitions[d], DraftSaved(s, d, allowed, text).value.definitions[d])
  {
    DraftReplaces(s.definitions[d], Latest(s.definitions[d].versions, {Draft}).value, text);
  }

  lemma OpenedReplaces(def: Definition, text: SpecText)
    requires DefinitionOk(def) && Latest(def.versions, {Draft}).None?
    ensures Replaces(def, def.(versions := Opened(def.versions, text)))
  {
    var was, vs := def.versions, Opened(def.versions, text);
    OpenedGood(was, text);
    LatestIsActive(def);
    OpenedKeeps(was, text, {Draft});
    forall i | 0 <= i < |vs|
      ensures vs[i].status != Review && (vs[i].status != Draft ==> InForce(vs[i].content))
    {
      if i < |was| { assert vs[i] == was[i]; }
    }
    assert vs[def.current.value] == was[def.current.value];
  }

  lemma OpenReplaces(s: Store, d: nat, allowed: bool)
    requires Inv(s) && RevisionOpened(s, d, allowed).Ok?
    ensures Replaces(s.definitions[d], RevisionOpened(s, d, allowed).value.definitions[d])
  {
    var def := s.definitions[d];
    var latest := Latest(def.versions, ALL);
    OpenedReplaces(def, if latest.Some? then def.versions[latest.value].content else Parsed(STARTER_SPEC));
  }

  lemma PromoteReplaces(def: Definition, v: nat)
    requires DefinitionOk(def) && v < |def.versions| && def.versions[v].status == Draft && InForce(def.versions[v].content)
    ensures Replaces(def, def.(versions := Promoted(def.versions, v), status := Activated, current := Some(v)))
  {
    var was, vs := def.versions, Promoted(def.versions, v);
    PromotedGood(was, v);
    PromotedKeeps(was, v, {Draft});
    forall j | 0 <= j < |vs|
      ensures vs[j].status != Review && (vs[j].status != Draft ==> InForce(vs[j].content))
    {
      assert vs[j].content == was[j].content;
      if j != v { assert vs[j].status == Past && was[j].status != Draft by { OpenIsLast(was, v); } }
    }
    RewriteReplaces(def, def.(versions := vs, status := Activated, current := Some(v)));
  }

  lemma ActivateReplaces(s: Store, d: nat, v: nat, allowed: bool, refs: Refs)
    requires Inv(s) && VersionActivated(s, d, v, allowed, refs).Ok?
    ensures d < |s.definitions| && !s.definitions[d].archived
    ensures var s' := VersionActivated(s, d, v, allowed, refs).value;
            s' == s || (s' == s.(definitions := s.definitions[d := s'.definitions[d]])
                        && Replaces(s.definitions[d], s'.definitions[d]) && !s'.definitions[d].archived)
  {
    var def := s.definitions[d];
    if def.versions[v].status == Draft { PromoteReplaces(def, v); }
  }

  // ----------------------------------------------------------------- instance steps

  lemma StartedOk(spec: Spec, d: nat, v: nat, entity: Entity, now: int)
    requires GraphValid(spec) && InitialStage(spec).Some?
    ensures InstanceOk(spec, NewInstance(d, v, entity, InitialStage(spec).value, now))
  {
    ValidStart(spec);
  }

  lemma AddKeepsInstances(defs: seq<Definition>, insts: seq<Instance>, inst: Instance)
    requires InstancesInv(defs, insts) && Bound(defs, inst)
    requires forall i :: 0 <= i < |insts| ==> insts[i].entity != inst.entity
    ensures InstancesInv(defs, insts + [inst])
  {
    var insts' := insts + [inst];
    forall j | 0 <= j < |insts'|
      ensures Bound(defs, insts'[j])
    {
      assert insts'[j] == if j < |insts| then insts[j] else inst;
    }
  }

  lemma SetKeepsInstances(defs: seq<Definition>, insts: seq<Instance>, i: nat, next: Instance)
    requires InstancesInv(defs, insts) && i < |insts| && Bound(defs, next) && next.entity == insts[i].entity
    ensures InstancesInv(defs, insts[i := next])
  {
    var insts' := insts[i := next];
    assert forall j :: 0 <= j < |insts| ==> insts'[j].entity == insts[j].entity;
    forall j | 0 <= j < |insts'|
      ensures Bound(defs, insts'[j])
    {
      assert insts'[j] == if j == i then next else insts[j];
    }
  }

  lemma StartKeepsInv(s: Store, entity: Entity, ref: DefinitionRef, allowed: bool, now: int)
    requires Inv(s) && Started(s, entity, ref, allowed, now).Ok?
    ensures Inv(Started(s, entity, ref, allowed, now).value)
  {
    if !Governed(s, entity) {
      var d := Lookup(s, ref).value;
      var v := Latest(s.definitions[d].versions, {Current}).value;
      var start := InitialStage(s.definitions[d].versions[v].content.spec).value;
      assert DefinitionOk(s.definitions[d]);
      NewIsBound(s.definitions, d, v, entity, now);
      AddKeepsInstances(s.definitions, s.instances, NewInstance(d, v, entity, start, now));
    }
  }

  lemma NewIsBound(defs: seq<Definition>, d: nat, v: nat, entity: Entity, now: int)
    requires d < |defs| && v < |defs[d].versions| && defs[d].versions[v].status == Current && !defs[d].archived
    requires InForce(defs[d].versions[v].content) && InitialStage(defs[d].versions[v].content.spec).Some?
    ensures Bound(defs, NewInstance(d, v, entity, InitialStage(defs[d].versions[v].content.spec).value, now))
  {
    StartedOk(defs[d].versions[v].content.spec, d, v, entity, now);
  }

  /** A transition extends the route by one hop. */
  lemma TransitionedOk(inst: Instance, spec: Spec, area: string, q: Request)
    requires InstanceOk(spec, inst) && Transitioned(inst, Parsed(spec), area, q).Ok?
    ensures InstanceOk(spec, Transitioned(inst, Parsed(spec), area, q).value)
    ensures inst.log < Transitioned(inst, Parsed(spec), area, q).value.log
  {
    var next := Transitioned(inst, Parsed(spec), area, q).value;
    var t := WithTransitionKey(TransitionsFrom(spec, inst.stage), q.transition).value;
    var to := StageByKey(spec, t.to).value;
    assert next == Moved(inst, t, to, inst.data + q.fields, q.now);
    RouteGrows(spec, inst.log, LogRow(Some(inst.stage), to.key, t.key));
  }

  lemma RouteGrows(spec: Spec, log: seq<LogRow>, row: LogRow)
    requires IsRoute(spec, log) && Logged(spec, log[|log| - 1].to, row)
    ensures IsRoute(spec, log + [row])
  {
    var longer := log + [row];
    forall i | 1 <= i < |longer|
      ensures Logged(spec, longer[i - 1].to, longer[i])
    {
      if i < |log| { assert Logged(spec, log[i - 1].to, log[i]); }
    }
  }

  /** The moved instance stays bound to the same version, with one row more in its log. */
  lemma PerformMoves(s: Store, i: nat, q: Request) returns (next: Instance)
    requires Inv(s) && Performed(s, i, q).Ok?
    ensures i < |s.instances| && s.instances[i].status == Active
    ensures Performed(s, i, q).value == s.(instances := s.instances[i := next])
    ensures Bound(s.definitions, next) && s.instances[i].log < next.log
    ensures var inst := s.instances[i];
            next.definition == inst.definition && next.version == inst.version && next.entity == inst.entity
  {
    var inst := s.instances[i];
    assert Bound(s.definitions, inst);
    var text := BoundText(s.definitions, inst);
    assert text == Parsed(text.spec);
    TransitionedOk(inst, text.spec, AreaOf(s, inst), q);
    next := Transitioned(inst, text, AreaOf(s, inst), q).value;
    TransitionedKeeps(inst, text, AreaOf(s, inst), q);
    BoundMoves(s.definitions, inst, next);
  }

  lemma TransitionedKeeps(inst: Instance, text: SpecText, area: string, q: Request)
    requires Transitioned(inst, text, area, q).Ok?
    ensures var next := Transitioned(inst, text, area, q).value;
            && inst.status == Active
            && next.definition == inst.definition && next.version == inst.version && next.entity == inst.entity
  {
  }

  lemma BoundMoves(defs: seq<Definition>, inst: Instance, next: Instance)
    requires Bound(defs, inst) && inst.status == Active
    requires next.definition == inst.definition && next.version == inst.version
    requires InstanceOk(BoundText(defs, inst).spec, next)
    ensures Bound(defs, next)
  {
    assert BoundText(defs, next) == BoundText(defs, inst);
  }

  lemma PerformKeepsInv(s: Store, i: nat, q: Request)
    requires Inv(s) && Performed(s, i, q).Ok?
    ensures Inv(Performed(s, i, q).value)
  {
    var next := PerformMoves(s, i, q);
    SetKeepsInstances(s.definitions, s.instances, i, next);
  }

  lemma EscalatedBound(defs: seq<Definition>, inst: Instance, now: int)
    requires Bound(defs, inst)
    ensures Bound(defs, EscalatedOne(defs, inst, now)) && EscalatedOne(defs, inst, now).entity == inst.entity
  {
    assert BoundText(defs, EscalatedOne(defs, inst, now)) == BoundText(defs, inst);
  }

  lemma EscalateKeepsInv(s: Store, batch: set<nat>, now: int)
    requires Inv(s)
    ensures Inv(Escalated(s, batch, now))
  {
    var insts := Escalated(s, batch, now).instances;
    forall i | 0 <= i < |insts|
      ensures Bound(s.definitions, insts[i]) && insts[i].entity == s.instances[i].entity
    {
      EscalatedBound(s.definitions, s.instances[i], now);
    }
  }

  lemma SaveKeepsInv(s: Store, d: nat, allowed: bool, text: SpecText)
    requires Inv(s) && DraftSaved(s, d, allowed, text).Ok?
    ensures Inv(DraftSaved(s, d, allowed, text).value)
  {
    SaveReplaces(s, d, allowed, text);
    ReplaceKeepsInv(s, d, DraftSaved(s, d, allowed, text).value.definitions[d]);
  }

  lemma OpenKeepsInv(s: Store, d: nat, allowed: bool)
    requires Inv(s) && RevisionOpened(s, d, allowed).Ok?
    ensures Inv(RevisionOpened(s, d, allowed).value)
  {
    OpenReplaces(s, d, allowed);
    ReplaceKeepsInv(s, d, RevisionOpened(s, d, allowed).value.definitions[d]);
  }

  lemma ActivateKeepsInv(s: Store, d: nat, v: nat, allowed: bool, refs: Refs)
    requires Inv(s) && VersionActivated(s, d, v, allowed, refs).Ok?
    ensures Inv(VersionActivated(s, d, v, allowed, refs).value)
  {
    ActivateReplaces(s, d, v, allowed, refs);
    var s' := VersionActivated(s, d, v, allowed, refs).value;
    if s' != s { ReplaceKeepsInv(s, d, s'.definitions[d]); }
  }

  lemma ArchiveKeepsInv(s: Store, d: nat, allowed: bool)
    requires Inv(s) && DefinitionArchived(s, d, allowed).Ok?
    ensures Inv(DefinitionArchived(s, d, allowed).value)
  {
    ReplaceKeepsInv(s, d, DefinitionArchived(s, d, allowed).value.definitions[d]);
  }

  lemma AuthoringKeepsInv(s: Store, op: Op)
    requires Inv(s) && Outcome(s, op).Ok? && !op.Start? && !op.Perform? && !op.Escalate?
    ensures Inv(Outcome(s, op).value)
  {
    match op
    case Create(key, area, allowed) => CreateKeepsInv(s, key, area, allowed);
    case Save(d, allowed, text) => SaveKeepsInv(s, d, allowed, text);
    case Open(d, allowed) => OpenKeepsInv(s, d, allowed);
    case Activate(d, v, allowed, refs) => ActivateKeepsInv(s, d, v, allowed, refs);
    case Archive(d, allowed) => ArchiveKeepsInv(s, d, allowed);
  }

  /** Every service function keeps the engine's invariant. */
  lemma StepKeepsInv(s: Store, op: Op)
    requires Inv(s)
    ensures Inv(Step(s, op))
  {
    if Outcome(s, op).Err? { return; }
    match op
    case Start(entity, ref, allowed, now) => StartKeepsInv(s, entity, ref, allowed, now);
    case Perform(i, q) => PerformKeepsInv(s, i, q);
    case Escalate(batch, now) => EscalateKeepsInv(s, batch, now);
    case _ => AuthoringKeepsInv(s, op);
  }

  lemma {:induction false} RunKeepsInv(s: Store, ops: seq<Op>)
    requires Inv(s)
    ensures Inv(Run(s, ops))
    decreases |ops|
  {
    if ops != [] {
      StepKeepsInv(s, ops[0]);
      RunKeepsInv(Step(s, ops[0]), ops[1..]);
    }
  }

  // ------------------------------------------------------------ the log is a path

  lemma {:induction false} RouteReplays(spec: Spec, log: seq<LogRow>)
    requires IsRoute(spec, log)
    ensures Replay(log) == Some(log[|log| - 1].to)
    decreases |log|
  {
    var n := |log| - 1;
    if n > 0 {
      assert Logged(spec, log[n - 1].to, log[n]);
      forall i | 1 <= i < n
        ensures Logged(spec, log[..n][i - 1].to, log[..n][i])
      {
        assert Logged(spec, log[i - 1].to, log[i]);
      }
      RouteReplays(spec, log[..n]);
    } else {
      assert log[..0] == [];
    }
  }

  /**
   * In every reachable store, an instance's log is a route through its bound spec from the
   * initial stage, replaying it gives the current stage, the instance is completed exactly when
   * that stage is terminal, and it was not escalated more often than it entered a stage, nor
   * before the deadline of a stage that escalates. Its data fills what its last stage required.
   */
  lemma LogIsAPath(ops: seq<Op>, i: nat)
    requires i < |Run(Store([], []), ops).instances|
    ensures var s := Run(Store([], []), ops);
            var inst := s.instances[i];
            && BoundText(s.definitions, inst).Parsed?
            && EscalationDue(BoundText(s.definitions, inst).spec, inst)
            && LastGateMet(BoundText(s.definitions, inst).spec, inst)
            && DeadlineKept(BoundText(s.definitions, inst).spec, inst)
            && IsRoute(BoundText(s.definitions, inst).spec, inst.log)
            && Replay(inst.log) == Some(inst.stage)
            && (inst.status == Completed <==> Terminal(BoundText(s.definitions, inst).spec, inst.stage))
            && inst.escalations <= |inst.log|
  {
    RunKeepsInv(Store([], []), ops);
    var s := Run(Store([], []), ops);
    assert Bound(s.definitions, s.instances[i]);
    RouteReplays(BoundText(s.definitions, s.instances[i]).spec, s.instances[i].log);
  }

  // ---------------------------------------------------------------- meaning is frozen

  /** What no run may change. */
  ghost predicate Preserves(s: Store, t: Store) {
    && |s.definitions| <= |t.definitions| && |s.instances| <= |t.instances|
    && (forall d :: 0 <= d < |s.definitions| ==>
          && Kept(s.definitions[d].versions, t.definitions[d].versions, {Draft})
          && (s.definitions[d].archived ==> t.definitions[d] == s.definitions[d]))
    && (forall i :: 0 <= i < |s.instances| ==>
          && t.instances[i].definition == s.instances[i].definition && t.instances[i].version == s.instances[i].version
          && t.instances[i].entity == s.instances[i].entity && s.instances[i].log <= t.instances[i].log
          && (s.instances[i].status == Completed ==> t.instances[i] == s.instances[i]))
  }

  lemma ReplacePreserves(s: Store, d: nat, d': Definition)
    requires d < |s.definitions| && !s.definitions[d].archived && Kept(s.definitions[d].versions, d'.versions, {Draft})
    ensures Preserves(s, s.(definitions := s.definitions[d := d']))
  {
  }

  lemma SetPreserves(s: Store, i: nat, next: Instance)
    requires i < |s.instances| && s.instances[i].status == Active && s.instances[i].log <= next.log
    requires next.definition == s.instances[i].definition && next.version == s.instances[i].version
    requires next.entity == s.instances[i].entity
    ensures Preserves(s, s.(instances := s.instances[i := next]))
  {
  }

  lemma AuthoringPreserves(s: Store, op: Op)
    requires Inv(s) && Outcome(s, op).Ok? && (op.Save? || op.Open? || op.Archive?)
    ensures Preserves(s, Step(s, op))
  {
    match op
    case Save(d, allowed, text) =>
      SaveReplaces(s, d, allowed, text);
      ReplacePreserves(s, d, Step(s, op).definitions[d]);
    case Open(d, allowed) =>
      OpenReplaces(s, d, allowed);
      ReplacePreserves(s, d, Step(s, op).definitions[d]);
    case Archive(d, allowed) => ReplacePreserves(s, d, Step(s, op).definitions[d]);
  }

  lemma ActivatePreserves(s: Store, d: nat, v: nat, allowed: bool, refs: Refs)
    requires Inv(s) && VersionActivated(s, d, v, allowed, refs).Ok?
    ensures Preserves(s, VersionActivated(s, d, v, allowed, refs).value)
  {
    ActivateReplaces(s, d, v, allowed, refs);
    var s' := VersionActivated(s, d, v, allowed, refs).value;
    if s' != s { ReplacePreserves(s, d, s'.definitions[d]); }
  }

  lemma GrowthPreserves(s: Store, defs: seq<Definition>, insts: seq<Instance>)
    ensures Preserves(s, Store(s.definitions + defs, s.instances + insts))
  {
  }

  lemma EscalatePreserves(s: Store, batch: set<nat>, now: int)
    ensures Preserves(s, Escalated(s, batch, now))
  {
  }

  lemma CreatePreserves(s: Store, op: Op)
    requires op.Create? && Outcome(s, op).Ok?
    ensures Preserves(s, Step(s, op))
  {
    GrowthPreserves(s, [Step(s, op).definitions[|s.definitions|]], []);
    assert s.instances + [] == s.instances;
  }

  lemma StartPreserves(s: Store, op: Op)
    requires op.Start? && Outcome(s, op).Ok?
    ensures Preserves(s, Step(s, op))
  {
    GrowthPreserves(s, [], []);
    assert s.instances + [] == s.instances && s.definitions + [] == s.definitions;
    if Step(s, op) != s { GrowthPreserves(s, [], [Step(s, op).instances[|s.instances|]]); }
  }

  lemma StepPreserves(s: Store, op: Op)
    requires Inv(s)
    ensures Preserves(s, Step(s, op))
  {
    GrowthPreserves(s, [], []);
    assert Store(s.definitions + [], s.instances + []) == s;
    if Outcome(s, op).Ok? {
      match op
      case Create(_, _, _) => CreatePreserves(s, op);
      case Activate(d, v, allowed, refs) => ActivatePreserves(s, d, v, allowed, refs);
      case Start(_, _, _, _) => StartPreserves(s, op);
      case Perform(i, q) =>
        var next := PerformMoves(s, i, q);
        SetPreserves(s, i, next);
      case Escalate(batch, now) => EscalatePreserves(s, batch, now);
      case _ => AuthoringPreserves(s, op);
    }
  }

  lemma PreservesTransitive(s: Store, t: Store, u: Store)
    requires Preserves(s, t) && Preserves(t, u)
    ensures Preserves(s, u)
  {
    forall d | 0 <= d < |s.definitions|
      ensures Kept(s.definitions[d].versions, u.definitions[d].versions, {Draft})
    {
      assert Kept(s.definitions[d].versions, t.definitions[d].versions, {Draft});
      assert Kept(t.definitions[d].versions, u.definitions[d].versions, {Draft});
    }
    forall i | 0 <= i < |s.instances|
      ensures s.instances[i].log <= u.instances[i].log
    {
      assert s.instances[i].log <= t.instances[i].log <= u.instances[i].log;
    }
  }

  lemma {:induction false} RunPreserves(s: Store, ops: seq<Op>)
    requires Inv(s)
    ensures Preserves(s, Run(s, ops))
    decreases |ops|
  {
    if ops != [] {
      StepKeepsInv(s, ops[0]);
      StepPreserves(s, ops[0]);
      RunPreserves(Step(s, ops[0]), ops[1..]);
      PreservesTransitive(s, Step(s, ops[0]), Run(s, ops));
    }
  }

  /**
   * Over every run: versions stay numbered 1..n with statuses `draft` or `retired* active
   * draft?`, the text of a version never changes once it has left draft, an instance's spec is
   * constant for life and its log only grows, and an archived definition never again changes
   * nor has a live instance.
   */
  lemma MeaningIsFrozen(s: Store, ops: seq<Op>)
    requires Inv(s)
    ensures var t := Run(s, ops);
            && Inv(t) && Preserves(s, t)
            && (forall i :: 0 <= i < |s.instances| ==>
                  BoundText(t.definitions, t.instances[i]) == BoundText(s.definitions, s.instances[i]))
            && (forall d :: 0 <= d < |s.definitions| && s.definitions[d].archived ==> !HasLive(t, d))
  {
    var t := Run(s, ops);
    RunKeepsInv(s, ops);
    RunPreserves(s, ops);
    forall i | 0 <= i < |s.instances|
      ensures BoundText(t.definitions, t.instances[i]) == BoundText(s.definitions, s.instances[i])
    {
      SpecIsConstant(s, t, i);
    }
    forall d | 0 <= d < |s.definitions| && s.definitions[d].archived
      ensures !HasLive(t, d)
    {
      ArchivedHasNoLive(t, d);
    }
  }

  lemma SpecIsConstant(s: Store, t: Store, i: nat)
    requires i < |s.instances| && Bound(s.definitions, s.instances[i]) && Preserves(s, t)
    ensures BoundText(t.definitions, t.instances[i]) == BoundText(s.definitions, s.instances[i])
  {
    var d := s.instances[i].definition;
    KeptVersion(s.definitions[d].versions, t.definitions[d].versions, s.instances[i].version);
  }

  lemma StatusHasPlace<T>(vs: seq<Version<T>>, past: nat, current: bool, open: bool, i: nat)
    requires Reads(vs, past, current, open) && i < |vs| && vs[i].status == Current
    ensures current
  {
  }

  /** The statuses of a definition's versions, in number order, read `draft` or `retired* active draft?`. */
  lemma VersionsRead(d: Definition)
    requires DefinitionOk(d)
    ensures (|d.versions| == 1 && d.versions[0].status == Draft) ||
            exists past, open :: Reads(d.versions, past, true, open)
  {
    ShapedIsRegular(d.versions);
    var past, current, open :| Reads(d.versions, past, current, open);
    if d.current.Some? {
      StatusHasPlace(d.versions, past, current, open, d.current.value);
    }
  }

  lemma ArchivedHasNoLive(t: Store, d: nat)
    requires Inv(t) && d < |t.definitions| && t.definitions[d].archived
    ensures !HasLive(t, d)
  {
    forall i | 0 <= i < |t.instances| && t.instances[i].definition == d
      ensures t.instances[i].status == Completed
    {
      assert Bound(t.definitions, t.instances[i]);
    }
  }

  // ------------------------------------------------------------------ never stranded

  /**
   * A live instance always has a transition to take, into a stage that exists: with the right
   * permission and the stage's gates met the engine performs it, and it can never answer that
   * the definition is invalid or corrupt.
   */
  lemma LiveInstancesCanMove(s: Store, i: nat) returns (t: Transition)
    requires Inv(s) && i < |s.instances| && s.instances[i].status == Active
    ensures forall q :: Performed(s, i, q) != Err(InvalidDefinition) && Performed(s, i, q) != Err(CorruptSpec)
    ensures forall q :: Ready(s.instances[i], BoundText(s.definitions, s.instances[i]), AreaOf(s, s.instances[i]), t, q) ==>
              Performed(s, i, q).Ok?
  {
    var inst := s.instances[i];
    BoundInForce(s, i);
    t := StageCanBeLeft(inst, BoundText(s.definitions, inst).spec, AreaOf(s, inst));
  }

  /** The request names the transition, holds its permission and meets the gates of the current stage. */
  predicate Ready(inst: Instance, text: SpecText, area: string, t: Transition, q: Request) {
    && text.Parsed? && q.transition == t.key && t.permission.GetOr(area + ".edit") in q.rights
    && var stage := StageByKey(text.spec, inst.stage);
       stage.Some? ==>
         && FieldsFilled(stage.value, inst.data + q.fields)
         && q.attached >= |stage.value.requiredDocuments| && q.approved >= stage.value.requiredApprovals
  }

  /** A transition is performed exactly when the spec offers it here and the request is ready for it. */
  lemma PerformedExactly(s: Store, i: nat, q: Request)
    requires Inv(s) && i < |s.instances| && s.instances[i].status == Active
    ensures var inst := s.instances[i];
            var text := BoundText(s.definitions, inst);
            text.Parsed? &&
            (Performed(s, i, q).Ok? <==>
              exists t :: t in TransitionsFrom(text.spec, inst.stage) && Ready(inst, text, AreaOf(s, inst), t, q))
  {
    var inst := s.instances[i];
    BoundInForce(s, i);
    var spec := BoundText(s.definitions, inst).spec;
    assert Parsed(spec) == BoundText(s.definitions, inst);
    var ts := TransitionsFrom(spec, inst.stage);
    ValidNeverStrands(spec, inst.stage);
    var found := WithTransitionKey(ts, q.transition);
    if found.Some? { RequestSucceeds(inst, spec, AreaOf(s, inst), found.value, q); }
    if t :| t in ts && Ready(inst, Parsed(spec), AreaOf(s, inst), t, q) {
      OneWithKey(spec, t, found.value);
    }
  }

  lemma OneWithKey(spec: Spec, t: Transition, u: Transition)
    requires DistinctTransitions(spec) && t in spec.transitions && u in spec.transitions && t.key == u.key
    ensures t == u
  {
    var i :| 0 <= i < |spec.transitions| && spec.transitions[i] == t;
    var j :| 0 <= j < |spec.transitions| && spec.transitions[j] == u;
  }

  lemma StageCanBeLeft(inst: Instance, spec: Spec, area: string) returns (t: Transition)
    requires GraphValid(spec) && StageByKey(spec, inst.stage).Some? && !Terminal(spec, inst.stage) && inst.status == Active
    ensures forall q :: Transitioned(inst, Parsed(spec), area, q) != Err(InvalidDefinition)
                        && Transitioned(inst, Parsed(spec), area, q) != Err(CorruptSpec)
    ensures forall q :: Ready(inst, Parsed(spec), area, t, q) ==> Transitioned(inst, Parsed(spec), area, q).Ok?
  {
    ValidNeverStrands(spec, inst.stage);
    var ts := TransitionsFrom(spec, inst.stage);
    assert ts[0] in ts;
    t := WithTransitionKey(ts, ts[0].key).value;
    forall q
      ensures Transitioned(inst, Parsed(spec), area, q) != Err(InvalidDefinition)
      ensures Transitioned(inst, Parsed(spec), area, q) != Err(CorruptSpec)
      ensures Ready(inst, Parsed(spec), area, t, q) ==> Transitioned(inst, Parsed(spec), area, q).Ok?
    {
      var found := WithTransitionKey(ts, q.transition);
      if found.Some? { RequestSucceeds(inst, spec, area, found.value, q); }
    }
  }

  /** What the engine answers once the transition asked for has been found. */
  lemma RequestSucceeds(inst: Instance, spec: Spec, area: string, t: Transition, q: Request)
    requires inst.status == Active && WithTransitionKey(TransitionsFrom(spec, inst.stage), q.transition) == Some(t)
    requires StageByKey(spec, t.to).Some?
    ensures Transitioned(inst, Parsed(spec), area, q).Ok? <==> Ready(inst, Parsed(spec), area, t, q)
    ensures Transitioned(inst, Parsed(spec), area, q) != Err(InvalidDefinition)
    ensures Transitioned(inst, Parsed(spec), area, q) != Err(CorruptSpec)
  {
  }

  /** Without a draft, the latest version is the active one. */
  lemma LatestIsActive(def: Definition)
    requires DefinitionOk(def) && Latest(def.versions, {Draft}).None?
    ensures def.current.Some? && Latest(def.versions, ALL) == def.current
  {
    CurrentIsLast(def.versions, def.current.value);
    LatestOfAll(def.versions);
  }

  lemma CurrentIsLast(vs: seq<Version<SpecText>>, c: nat)
    requires Shaped(vs) && c < |vs| && vs[c].status == Current && vs[|vs| - 1].status in {Past, Current}
    ensures c == |vs| - 1
  {
    assert Rank(vs[|vs| - 1].status) <= 1;
  }

  lemma EveryStatus(status: Status)
    ensures status in ALL
  {
    match status
    case Past => case Current => case Draft => case Review =>
  }

  lemma LatestOfAll(vs: seq<Version<SpecText>>)
    requires Dense(vs) && vs != []
    ensures Latest(vs, ALL) == Some(|vs| - 1)
  {
    var latest := Latest(vs, ALL);
    EveryStatus(vs[|vs| - 1].status);
    assert vs[|vs| - 1].number <= vs[latest.value].number;
  }

  /** A revision is seeded from the active version whenever it can be opened. */
  lemma RevisionSeededFromActive(s: Store, d: nat, allowed: bool)
    requires Inv(s) && RevisionOpened(s, d, allowed).Ok?
    ensures d < |s.definitions| && s.definitions[d].current.Some?
    ensures var vs := RevisionOpened(s, d, allowed).value.definitions[d].versions;
            vs == Opened(s.definitions[d].versions, s.definitions[d].versions[s.definitions[d].current.value].content)
  {
    LatestIsActive(s.definitions[d]);
  }
}
