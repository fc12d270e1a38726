/** What each operation of the workflow engine does to a reachable store, told without its code. */
module WorkflowEffects {
  import opened Common
  import opened History
  import opened WorkflowSpec
  import opened Workflows
  import opened WorkflowRuns

  // ------------------------------------------------------------------- authoring

  predicate Editable(s: Store, d: nat) {
    d < |s.definitions| && !s.definitions[d].archived
  }

  /** Everything but the versions, status and archive mark of definition `d` is as before. */
  predicate OnlyDefinition(s: Store, t: Store, d: nat) {
    && d < |s.definitions| == |t.definitions| && t.instances == s.instances
    && (forall e :: 0 <= e < |s.definitions| && e != d ==> t.definitions[e] == s.definitions[e])
    && t.definitions[d].key == s.definitions[d].key && t.definitions[d].area == s.definitions[d].area
  }

  /** A key is taken once; a new definition starts as a draft of the starter spec, numbered 1. */
  lemma CreateExactly(s: Store, key: string, area: string, allowed: bool)
    ensures Created(s, key, area, allowed).Ok? <==> allowed && forall d :: 0 <= d < |s.definitions| ==> s.definitions[d].key != key
    ensures Created(s, key, area, allowed).Ok? ==>
              var t := Created(s, key, area, allowed).value;
              && |t.definitions| == |s.definitions| + 1 && s.definitions < t.definitions && t.instances == s.instances
              && var d := t.definitions[|s.definitions|];
                 && d.key == key && d.area == area && d.status == Drafted && !d.archived && d.current.None?
                 && |d.versions| == 1 && d.versions[0].number == 1 && d.versions[0].status == Draft
                 && d.versions[0].content == Parsed(STARTER_SPEC)
  {
  }

  /** A save is accepted exactly while the last version is a draft, and changes its text alone. */
  lemma SaveExactly(s: Store, d: nat, allowed: bool, text: SpecText)
    requires Inv(s)
    ensures DraftSaved(s, d, allowed, text).Ok? <==> allowed && Editable(s, d) && LastIn(s.definitions[d].versions, {Draft})
    ensures DraftSaved(s, d, allowed, text).Ok? ==>
              var t := DraftSaved(s, d, allowed, text).value;
              && OnlyDefinition(s, t, d)
              && var was, became := s.definitions[d], t.definitions[d];
                 && OnlyVersion(was.versions, became.versions, |was.versions| - 1) && Last(became.versions).content == text && Last(became.versions).status == Draft
                 && became.status == was.status && became.current == was.current && !became.archived
  {
    if d < |s.definitions| { assert DefinitionOk(s.definitions[d]); OpenIsFound(s.definitions[d].versions, {Draft}); }
  }

  /** A revision opens exactly while there is no draft. */
  lemma OpenExactly(s: Store, d: nat, allowed: bool)
    requires Inv(s)
    ensures RevisionOpened(s, d, allowed).Ok? <==> allowed && Editable(s, d) && !LastIn(s.definitions[d].versions, {Draft})
  {
    if d < |s.definitions| {
      assert DefinitionOk(s.definitions[d]);
      OpenIsFound(s.definitions[d].versions, {Draft});
    }
  }

  lemma LastIsSeed(def: Definition)
    requires DefinitionOk(def) && Latest(def.versions, {Draft}).None?
    ensures def.versions != [] && Last(def.versions).status == Current && Latest(def.versions, ALL) == Some(|def.versions| - 1)
    ensures OneMoreDraft(def.versions, Opened(def.versions, Last(def.versions).content), Last(def.versions).content)
  {
    LatestIsActive(def);
    LatestOfAll(def.versions);
    DenseMax(def.versions);
  }

  /** And then there is one more version, with the text in force. */
  lemma OpenEffect(s: Store, d: nat, allowed: bool)
    requires Inv(s) && RevisionOpened(s, d, allowed).Ok?
    ensures var t := RevisionOpened(s, d, allowed).value;
            && OnlyDefinition(s, t, d)
            && var was, became := s.definitions[d], t.definitions[d];
               && was.versions != [] && Last(was.versions).status == Current
               && OneMoreDraft(was.versions, became.versions, Last(was.versions).content)
               && became.status == was.status && became.current == was.current && !became.archived
  {
    assert DefinitionOk(s.definitions[d]);
    LastIsSeed(s.definitions[d]);
  }

  /** A version can be activated exactly if it is a valid draft, or in force already. */
  lemma ActivateExactly(s: Store, d: nat, v: nat, allowed: bool, refs: Refs)
    requires Inv(s)
    ensures VersionActivated(s, d, v, allowed, refs).Ok? <==>
              && allowed && Editable(s, d) && v < |s.definitions[d].versions|
              && (s.definitions[d].versions[v].status == Current
                  || (s.definitions[d].versions[v].status == Draft && Activatable(s.definitions[d].versions[v].content, refs)))
  {
    if d < |s.definitions| { assert DefinitionOk(s.definitions[d]); }
  }

  /** A draft comes into force, and the version before it is retired; again, activation changes nothing. */
  lemma ActivateEffect(s: Store, d: nat, v: nat, allowed: bool, refs: Refs)
    requires VersionActivated(s, d, v, allowed, refs).Ok?
    ensures var t := VersionActivated(s, d, v, allowed, refs).value;
            if s.definitions[d].versions[v].status == Current then t == s
            else
              && OnlyDefinition(s, t, d) && PutInForce(s.definitions[d].versions, t.definitions[d].versions, v)
              && t.definitions[d].current == Some(v) && t.definitions[d].status == Activated && !t.definitions[d].archived
  {
  }

  /** A definition is archived exactly while no record bound to it is live; its versions stay. */
  lemma ArchiveExactly(s: Store, d: nat, allowed: bool)
    ensures DefinitionArchived(s, d, allowed).Ok? <==>
              && allowed && Editable(s, d)
              && forall i :: 0 <= i < |s.instances| && s.instances[i].definition == d ==> s.instances[i].status != Active
    ensures DefinitionArchived(s, d, allowed).Ok? ==>
              var t := DefinitionArchived(s, d, allowed).value;
              && OnlyDefinition(s, t, d) && t.definitions[d].versions == s.definitions[d].versions
              && t.definitions[d].archived && t.definitions[d].status == Archived && t.definitions[d].current == s.definitions[d].current
  {
  }

  // ------------------------------------------------------------------- deadlines

  /** A deadline stands exactly for a stage with hours, and lies that many hours ahead to the millisecond. */
  predicate Deadline(stage: Stage, now: int, due: Option<int>) {
    && (due.Some? <==> stage.slaHours.Some? && stage.slaHours.value != 0.0)
    && (due.Some? ==> due.value as real <= now as real + stage.slaHours.value * 3600000.0 < due.value as real + 1.0)
  }

  lemma DueExactly(stage: Stage, now: int)
    ensures Deadline(stage, now, StageDueAt(stage, now))
  {
  }

  // --------------------------------------------------------------------- starting

  /** The definition a reference names. */
  ghost predicate Names(s: Store, ref: DefinitionRef, d: nat) {
    && d < |s.definitions|
    && match ref
       case ById(id) => d == id
       case ByKey(key) => s.definitions[d].key == key
       case Unnamed => false
  }

  lemma LookupExactly(s: Store, ref: DefinitionRef, d: nat)
    requires Inv(s)
    ensures Lookup(s, ref) == Some(d) <==> Names(s, ref, d)
  {
  }

  predicate Entered(inst: Instance, d: nat, v: nat, entity: Entity, start: Stage, now: int) {
    && inst.definition == d && inst.version == v && inst.entity == entity && inst.stage == start.key
    && inst.status == (if start.isTerminal then Completed else Active)
    && inst.completedAt == (if start.isTerminal then Some(now) else None)
    && inst.data == map[] && Deadline(start, now, inst.dueAt) && inst.escalatedAt.None? && inst.escalations == 0
    && inst.log == [LogRow(None, start.key, "start")]
  }

  /** Definition `d` can govern new records: it is not archived and version `v` is in force. */
  predicate Governs(s: Store, d: nat, v: nat) {
    Editable(s, d) && v < |s.definitions[d].versions| && s.definitions[d].versions[v].status == Current
  }

  lemma CurrentIsTheOne(d: Definition, v: nat)
    requires DefinitionOk(d) && v < |d.versions| && d.versions[v].status == Current
    ensures Latest(d.versions, {Current}) == Some(v) && InForce(d.versions[v].content)
  {
    OneInForce(d.versions, Latest(d.versions, {Current}).value, v);
  }

  lemma OneInForce(vs: seq<Version<SpecText>>, v: nat, w: nat)
    requires Shaped(vs) && v < |vs| && w < |vs| && vs[v].status == Current && vs[w].status == Current
    ensures v == w
  {
  }

  /** A record that is governed already is left alone. */
  lemma StartTwice(s: Store, entity: Entity, ref: DefinitionRef, allowed: bool, now: int)
    ensures (exists i :: 0 <= i < |s.instances| && s.instances[i].entity == entity) ==> Started(s, entity, ref, allowed, now) == Ok(s)
  {
  }

  lemma StartedIs(s: Store, entity: Entity, ref: DefinitionRef, now: int, d: nat, v: nat, start: Stage)
    requires !Governed(s, entity) && Lookup(s, ref) == Some(d) && !s.definitions[d].archived
    requires Latest(s.definitions[d].versions, {Current}) == Some(v) && s.definitions[d].versions[v].content.Parsed?
    requires InitialStage(s.definitions[d].versions[v].content.spec) == Some(start)
    ensures Started(s, entity, ref, true, now) == Ok(s.(instances := s.instances + [NewInstance(d, v, entity, start, now)]))
  {
  }

  lemma GovernedStarts(s: Store, entity: Entity, ref: DefinitionRef, now: int, d: nat, v: nat)
    requires Inv(s) && !Governed(s, entity) && Names(s, ref, d) && Governs(s, d, v)
    ensures Started(s, entity, ref, true, now).Ok?
  {
    LookupExactly(s, ref, d);
    assert DefinitionOk(s.definitions[d]);
    CurrentIsTheOne(s.definitions[d], v);
    var spec := s.definitions[d].versions[v].content.spec;
    ValidStart(spec);
    StartedIs(s, entity, ref, now, d, v, InitialStage(spec).value);
  }

  /** Any other starts exactly if the definition named has a version in force and the caller may. */
  lemma StartExactly(s: Store, entity: Entity, ref: DefinitionRef, allowed: bool, now: int)
    requires Inv(s) && forall i :: 0 <= i < |s.instances| ==> s.instances[i].entity != entity
    ensures Started(s, entity, ref, allowed, now).Ok? <==> allowed && exists d: nat, v: nat :: Names(s, ref, d) && Governs(s, d, v)
  {
    assert !Governed(s, entity);
    if Started(s, entity, ref, allowed, now).Ok? {
      StartBinds(s, entity, ref, allowed, now);
    } else if d: nat, v: nat :| allowed && Names(s, ref, d) && Governs(s, d, v) {
      GovernedStarts(s, entity, ref, now, d, v);
    }
  }

  ghost predicate Begun(s: Store, entity: Entity, ref: DefinitionRef, now: int, inst: Instance) {
    exists d: nat, v: nat, start :: Starts(s, ref, d, v, start) && Entered(inst, d, v, entity, start, now)
  }

  /** Stage `start` is where the version in force of the definition named begins. */
  ghost predicate Starts(s: Store, ref: DefinitionRef, d: nat, v: nat, start: Stage) {
    && Names(s, ref, d) && Governs(s, d, v) && s.definitions[d].versions[v].content.Parsed?
    && start in s.definitions[d].versions[v].content.spec.stages && start.isInitial
  }

  lemma StartedGrows(s: Store, entity: Entity, ref: DefinitionRef, allowed: bool, now: int) returns (d: nat, v: nat, start: Stage)
    requires Started(s, entity, ref, allowed, now).Ok? && !Governed(s, entity)
    ensures allowed && Lookup(s, ref) == Some(d) && !s.definitions[d].archived
    ensures Latest(s.definitions[d].versions, {Current}) == Some(v) && s.definitions[d].versions[v].content.Parsed?
    ensures InitialStage(s.definitions[d].versions[v].content.spec) == Some(start)
    ensures Started(s, entity, ref, allowed, now).value == s.(instances := s.instances + [NewInstance(d, v, entity, start, now)])
  {
    d := Lookup(s, ref).value;
    v := Latest(s.definitions[d].versions, {Current}).value;
    start := InitialStage(s.definitions[d].versions[v].content.spec).value;
  }

  /** And then it enters the start of that version: one more record, nothing else. */
  lemma StartBinds(s: Store, entity: Entity, ref: DefinitionRef, allowed: bool, now: int)
    requires Inv(s) && (forall i :: 0 <= i < |s.instances| ==> s.instances[i].entity != entity) && Started(s, entity, ref, allowed, now).Ok?
    ensures allowed && exists d: nat, v: nat :: Names(s, ref, d) && Governs(s, d, v)
    ensures var t := Started(s, entity, ref, allowed, now).value;
            && t.definitions == s.definitions && |t.instances| == |s.instances| + 1 && s.instances < t.instances
            && Begun(s, entity, ref, now, t.instances[|s.instances|])
  {
    assert !Governed(s, entity);
    var d, v, start := StartedGrows(s, entity, ref, allowed, now);
    LookupExactly(s, ref, d);
    DueExactly(start, now);
    assert Names(s, ref, d) && Governs(s, d, v) && Starts(s, ref, d, v, start);
    assert Entered(NewInstance(d, v, entity, start, now), d, v, entity, start, now);
  }

  // -------------------------------------------------------------------- performing

  /** A field has a value with something written in it, the request's value taking precedence. */
  predicate FilledIn(data: map<string, string>, fields: map<string, string>, f: string) {
    if f in fields then Written(fields[f]) else f in data && Written(data[f])
  }

  predicate MayUse(t: Transition, area: string, rights: set<string>) {
    if t.permission.Some? then t.permission.value in rights else area + ".edit" in rights
  }

  /** The request names a transition that leaves the record's stage, holds its permission and meets the stage's gates. */
  predicate Passes(spec: Spec, inst: Instance, area: string, t: Transition, q: Request) {
    && t in spec.transitions && t.key == q.transition && (t.from == inst.stage || t.from == "*") && MayUse(t, area, q.rights)
    && forall stage :: stage in spec.stages && stage.key == inst.stage ==> GatesMet(stage, inst, q)
  }

  predicate GatesMet(stage: Stage, inst: Instance, q: Request) {
    && (forall f :: f in stage.requiredFields ==> FilledIn(inst.data, q.fields, f))
    && q.attached >= |stage.requiredDocuments| && q.approved >= stage.requiredApprovals
  }

  lemma FieldsExactly(stage: Stage, data: map<string, string>, fields: map<string, string>)
    ensures FieldsFilled(stage, data + fields) <==> forall f :: f in stage.requiredFields ==> FilledIn(data, fields, f)
  {
    forall f
      ensures Trim(Collected(data + fields, f)) != "" <==> FilledIn(data, fields, f)
    {
      TrimExactly(Collected(data + fields, f));
    }
  }

  lemma TheStage(spec: Spec, key: string, stage: Stage)
    requires DistinctStages(spec) && stage in spec.stages && stage.key == key
    ensures StageByKey(spec, key) == Some(stage)
  {
    KeyFinds(spec, stage);
  }

  lemma PassesIsReady(spec: Spec, inst: Instance, area: string, t: Transition, q: Request)
    requires GraphValid(spec) && StageByKey(spec, inst.stage).Some? && !Terminal(spec, inst.stage)
    ensures Passes(spec, inst, area, t, q) <==> t in TransitionsFrom(spec, inst.stage) && Ready(inst, Parsed(spec), area, t, q)
  {
    GatesAreThe(spec, inst, q);
    FieldsExactly(StageByKey(spec, inst.stage).value, inst.data, q.fields);
  }

  lemma GatesAreThe(spec: Spec, inst: Instance, q: Request)
    requires DistinctStages(spec) && StageByKey(spec, inst.stage).Some?
    ensures (forall stage :: stage in spec.stages && stage.key == inst.stage ==> GatesMet(stage, inst, q)) <==>
              GatesMet(StageByKey(spec, inst.stage).value, inst, q)
  {
    var stage := StageByKey(spec, inst.stage).value;
    forall other | other in spec.stages && other.key == inst.stage ensures other == stage { TheStage(spec, inst.stage, other); }
  }

  /** What performing `t` makes of a record: every field. */
  predicate Arrived(inst: Instance, next: Instance, spec: Spec, t: Transition, q: Request) {
    && next.definition == inst.definition && next.version == inst.version && next.entity == inst.entity
    && next.stage == t.to && next.escalations == inst.escalations && next.escalatedAt.None?
    && next.log == inst.log + [LogRow(Some(inst.stage), t.to, t.key)]
    && next.data.Keys == inst.data.Keys + q.fields.Keys
    && (forall f :: f in next.data ==> next.data[f] == if f in q.fields then q.fields[f] else inst.data[f])
    && forall stage :: stage in spec.stages && stage.key == t.to ==>
         if stage.isTerminal then next.status == Completed && next.completedAt == Some(q.now) && next.dueAt.None?
         else next.status == Active && next.completedAt.None? && Deadline(stage, q.now, next.dueAt)
  }

  lemma MovedArrives(inst: Instance, spec: Spec, t: Transition, q: Request)
    requires DistinctStages(spec) && StageByKey(spec, t.to).Some?
    ensures Arrived(inst, Moved(inst, t, StageByKey(spec, t.to).value, inst.data + q.fields, q.now), spec, t, q)
  {
    var to := StageByKey(spec, t.to).value;
    DueExactly(to, q.now);
    forall other | other in spec.stages && other.key == t.to ensures other == to { TheStage(spec, t.to, other); }
  }

  /** The transitioned record, found by the key asked for. */
  lemma TransitionedArrives(inst: Instance, spec: Spec, area: string, q: Request) returns (t: Transition)
    requires GraphValid(spec) && inst.status == Active && StageByKey(spec, inst.stage).Some? && !Terminal(spec, inst.stage)
    requires Transitioned(inst, Parsed(spec), area, q).Ok?
    ensures Passes(spec, inst, area, t, q) && Arrived(inst, Transitioned(inst, Parsed(spec), area, q).value, spec, t, q)
  {
    t := WithTransitionKey(TransitionsFrom(spec, inst.stage), q.transition).value;
    RequestSucceeds(inst, spec, area, t, q);
    PassesIsReady(spec, inst, area, t, q);
    MovedArrives(inst, spec, t, q);
  }

  lemma PassingSucceeds(inst: Instance, spec: Spec, area: string, t: Transition, q: Request)
    requires GraphValid(spec) && inst.status == Active && StageByKey(spec, inst.stage).Some? && !Terminal(spec, inst.stage)
    requires Passes(spec, inst, area, t, q)
    ensures Transitioned(inst, Parsed(spec), area, q).Ok?
  {
    PassesIsReady(spec, inst, area, t, q);
    var found := WithTransitionKey(TransitionsFrom(spec, inst.stage), q.transition).value;
    OneWithKey(spec, t, found);
    ValidNeverStrands(spec, inst.stage);
    RequestSucceeds(inst, spec, area, t, q);
  }

  ghost predicate MayPerform(s: Store, i: nat, q: Request) {
    && i < |s.instances| && s.instances[i].status == Active && BoundText(s.definitions, s.instances[i]).Parsed?
    && exists t :: Passes(BoundText(s.definitions, s.instances[i]).spec, s.instances[i], AreaOf(s, s.instances[i]), t, q)
  }

  /** A transition succeeds exactly on a live record whose spec has one of that name that the request may pass. */
  lemma PerformExactly(s: Store, i: nat, q: Request)
    requires Inv(s)
    ensures Performed(s, i, q).Ok? <==> MayPerform(s, i, q)
  {
    if i < |s.instances| && s.instances[i].status == Active {
      var inst := s.instances[i];
      BoundInForce(s, i);
      var spec, area := BoundText(s.definitions, inst).spec, AreaOf(s, inst);
      assert Parsed(spec) == BoundText(s.definitions, inst);
      if Transitioned(inst, Parsed(spec), area, q).Ok? { var t := TransitionedArrives(inst, spec, area, q); }
      if t :| Passes(spec, inst, area, t, q) { PassingSucceeds(inst, spec, area, t, q); }
    }
  }

  /** And then that record arrives, and nothing else changes. */
  lemma PerformEffect(s: Store, i: nat, q: Request) returns (t: Transition)
    requires Inv(s) && Performed(s, i, q).Ok?
    ensures i < |s.instances| && BoundText(s.definitions, s.instances[i]).Parsed?
    ensures var after, spec := Performed(s, i, q).value, BoundText(s.definitions, s.instances[i]).spec;
            && after.definitions == s.definitions && |after.instances| == |s.instances|
            && (forall j :: 0 <= j < |s.instances| && j != i ==> after.instances[j] == s.instances[j])
            && Passes(spec, s.instances[i], AreaOf(s, s.instances[i]), t, q)
            && Arrived(s.instances[i], after.instances[i], spec, t, q)
  {
    var inst := s.instances[i];
    BoundInForce(s, i);
    var spec, area := BoundText(s.definitions, inst).spec, AreaOf(s, inst);
    assert Parsed(spec) == BoundText(s.definitions, inst);
    t := TransitionedArrives(inst, spec, area, q);
  }

  // --------------------------------------------------------------------- escalating

  /** A live record past its deadline, not escalated since, in a stage that escalates. */
  ghost predicate Due(s: Store, i: nat, now: int) {
    && i < |s.instances| && s.instances[i].status == Active && s.instances[i].escalatedAt.None?
    && s.instances[i].dueAt.Some? && s.instances[i].dueAt.value < now && BoundText(s.definitions, s.instances[i]).Parsed?
    && exists stage :: stage in BoundText(s.definitions, s.instances[i]).spec.stages
                       && stage.key == s.instances[i].stage && stage.escalation.Some?
  }

  lemma DueEscalates(s: Store, i: nat, now: int)
    requires Inv(s) && i < |s.instances|
    ensures Escalates(s.definitions, s.instances[i], now) <==> Due(s, i, now)
  {
    BoundInForce(s, i);
    var spec := BoundText(s.definitions, s.instances[i]).spec;
    if stage :| stage in spec.stages && stage.key == s.instances[i].stage && stage.escalation.Some? {
      TheStage(spec, s.instances[i].stage, stage);
    }
  }

  /** The job marks exactly the due records of its batch, once each, and changes nothing else of them or of others. */
  lemma EscalateExactly(s: Store, batch: set<nat>, now: int, i: nat)
    requires Inv(s) && i < |s.instances|
    ensures var t := Escalated(s, batch, now);
            && t.definitions == s.definitions && |t.instances| == |s.instances|
            && t.instances[i] ==
                 if i in batch && Due(s, i, now)
                 then s.instances[i].(escalatedAt := Some(now), escalations := s.instances[i].escalations + 1)
                 else s.instances[i]
  {
    DueEscalates(s, i, now);
  }

  ghost function DueSet(s: Store, batch: set<nat>, now: int): set<nat> {
    set i: nat | i < |s.instances| && i in batch && Due(s, i, now)
  }

  /** The job reports as many escalations as there were records due. */
  lemma EscalationsCounted(s: Store, batch: set<nat>, now: int)
    requires Inv(s)
    ensures CountIf(|s.instances|, EscalatingAt(s, batch, now)) == |DueSet(s, batch, now)|
  {
    CountIfIsSize(|s.instances|, EscalatingAt(s, batch, now));
    forall i: nat | i < |s.instances| ensures Escalates(s.definitions, s.instances[i], now) <==> Due(s, i, now) { DueEscalates(s, i, now); }
    assert Satisfying(|s.instances|, EscalatingAt(s, batch, now)) == DueSet(s, batch, now);
  }

  function LateSet(s: Store, batch: set<nat>, now: int): set<nat> {
    set i: nat | i < |s.instances| && i in batch && s.instances[i].status == Active && s.instances[i].escalatedAt.None?
                 && s.instances[i].dueAt.Some? && s.instances[i].dueAt.value < now
  }

  /** And as many scanned as there were live records of the batch past their deadline and not escalated since. */
  lemma ScansCounted(s: Store, batch: set<nat>, now: int)
    ensures CountIf(|s.instances|, OverdueAt(s, batch, now)) == |LateSet(s, batch, now)|
  {
    CountIfIsSize(|s.instances|, OverdueAt(s, batch, now));
    assert Satisfying(|s.instances|, OverdueAt(s, batch, now)) == LateSet(s, batch, now);
  }
}
