/** The configurable workflow engine (src/domain/workflows.ts); rows are named by their position. */
module Workflows {
  import opened Common
  import opened History
  import opened WorkflowSpec

  datatype DefinitionStatus = Drafted | Activated | Archived

  /** `area` is the governed module; `current` the version in force; a version's Current status reads "active". */
  datatype Definition = Definition(
    key: string, area: string, status: DefinitionStatus, archived: bool, current: Option<nat>,
    versions: seq<Version<SpecText>>)

  datatype LogRow = LogRow(from: Option<string>, to: string, transition: string)

  datatype InstanceStatus = Active | Completed

  datatype Entity = Entity(kind: string, id: string)

  /** `log` is the instance's append-only transition log, `escalations` the number of its escalation records. */
  datatype Instance = Instance(
    definition: nat, version: nat, entity: Entity, stage: string, status: InstanceStatus, data: map<string, string>,
    dueAt: Option<int>, escalatedAt: Option<int>, completedAt: Option<int>, log: seq<LogRow>, escalations: nat)

  datatype Store = Store(definitions: seq<Definition>, instances: seq<Instance>)

  datatype Error =
    | Forbidden | KeyTaken | NotFound | NoDraft | DraftExists | RetiredVersion | InvalidDefinition | HasLiveInstances
    | NotActive | CorruptSpec | InvalidTransition | MissingField | MissingDocuments | MissingApprovals

  const ALL: set<Status> := {Past, Current, Draft, Review}

  const STARTER_SPEC: Spec := Spec(
    [Named("draft", true, false), Named("in_review", false, false), Named("approved", false, true), Named("rejected", false, true)],
    [Transition("submit", "draft", "in_review", None), Transition("approve", "in_review", "approved", None),
     Transition("reject", "in_review", "rejected", None), Transition("revise", "in_review", "draft", None)])

  // ------------------------------------------------------------- authoring definitions

  function Refusal(s: Store, d: nat, allowed: bool): Option<Error> {
    if d >= |s.definitions| || s.definitions[d].archived then Some(NotFound) else if !allowed then Some(Forbidden) else None
  }

  function WithVersions(s: Store, d: nat, versions: seq<Version<SpecText>>): Store
    requires d < |s.definitions|
  {
    s.(definitions := s.definitions[d := s.definitions[d].(versions := versions)])
  }

  predicate KeyUsed(s: Store, key: string) {
    exists i :: 0 <= i < |s.definitions| && s.definitions[i].key == key
  }

  function Created(s: Store, key: string, area: string, allowed: bool): Result<Store, Error> {
    if !allowed then Err(Forbidden)
    else if KeyUsed(s, key) then Err(KeyTaken)
    else
      var def := Definition(key, area, Drafted, false, None, [Version(1, Draft, Parsed(STARTER_SPEC))]);
      Ok(s.(definitions := s.definitions + [def]))
  }

  /** Even an invalid draft is saved; activation is what enforces validity. */
  function DraftSaved(s: Store, d: nat, allowed: bool, text: SpecText): Result<Store, Error> {
    if Refusal(s, d, allowed).Some? then Err(Refusal(s, d, allowed).value)
    else
      var vs := s.definitions[d].versions;
      match Latest(vs, {Draft})
      case None => Err(NoDraft)
      case Some(i) => Ok(WithVersions(s, d, vs[i := vs[i].(content := text)]))
  }

  /** A new draft, seeded from the latest version whatever its status. */
  function RevisionOpened(s: Store, d: nat, allowed: bool): Result<Store, Error> {
    if Refusal(s, d, allowed).Some? then Err(Refusal(s, d, allowed).value)
    else
      var vs := s.definitions[d].versions;
      if Latest(vs, {Draft}).Some? then Err(DraftExists)
      else
        var latest := Latest(vs, ALL);
        Ok(WithVersions(s, d, Opened(vs, if latest.Some? then vs[latest.value].content else Parsed(STARTER_SPEC))))
  }

  ghost function VersionActivated(s: Store, d: nat, v: nat, allowed: bool, refs: Refs): Result<Store, Error> {
    if Refusal(s, d, allowed).Some? then Err(Refusal(s, d, allowed).value)
    else
      var def := s.definitions[d];
      if v >= |def.versions| then Err(NotFound)
      else if def.versions[v].status == Current then Ok(s)
      else if def.versions[v].status == Past then Err(RetiredVersion)
      else if !Activatable(def.versions[v].content, refs) then Err(InvalidDefinition)
      else
        var def' := def.(versions := Promoted(def.versions, v), status := Activated, current := Some(v));
        Ok(s.(definitions := s.definitions[d := def']))
  }

  predicate HasLive(s: Store, d: nat) {
    exists i :: 0 <= i < |s.instances| && s.instances[i].definition == d && s.instances[i].status == Active
  }

  function DefinitionArchived(s: Store, d: nat, allowed: bool): Result<Store, Error> {
    if Refusal(s, d, allowed).Some? then Err(Refusal(s, d, allowed).value)
    else if HasLive(s, d) then Err(HasLiveInstances)
    else Ok(s.(definitions := s.definitions[d := s.definitions[d].(archived := true, status := Archived)]))
  }

  // ------------------------------------------------------------------ running instances

  function StageDueAt(stage: Stage, now: int): Option<int> {
    if stage.slaHours.GetOr(0.0) == 0.0 then None else Some(now + (stage.slaHours.value * 3600000.0).Floor)
  }

  datatype DefinitionRef = ById(id: nat) | ByKey(key: string) | Unnamed

  function FindKey(definitions: seq<Definition>, key: string): (r: Option<nat>)
    ensures r.Some? ==> r.value < |definitions| && definitions[r.value].key == key
    ensures r.None? ==> forall i :: 0 <= i < |definitions| ==> definitions[i].key != key
  {
    if definitions == [] then None
    else if definitions[|definitions| - 1].key == key then Some(|definitions| - 1)
    else FindKey(definitions[..|definitions| - 1], key)
  }

  function Lookup(s: Store, ref: DefinitionRef): (r: Option<nat>)
    ensures r.Some? ==> r.value < |s.definitions|
  {
    match ref
    case ById(id) => if id < |s.definitions| then Some(id) else None
    case ByKey(key) => FindKey(s.definitions, key)
    case Unnamed => None
  }

  predicate Governed(s: Store, entity: Entity) {
    exists i :: 0 <= i < |s.instances| && s.instances[i].entity == entity
  }

  function NewInstance(d: nat, v: nat, entity: Entity, start: Stage, now: int): Instance {
    Instance(d, v, entity, start.key, if start.isTerminal then Completed else Active, map[], StageDueAt(start, now), None,
             if start.isTerminal then Some(now) else None, [LogRow(None, start.key, "start")], 0)
  }

  /** Starting is idempotent per record, and binds the record to the version now in force. */
  function Started(s: Store, entity: Entity, ref: DefinitionRef, allowed: bool, now: int): Result<Store, Error> {
    if Governed(s, entity) then Ok(s)
    else
      var found := Lookup(s, ref);
      if found.None? || s.definitions[found.value].archived then Err(NotFound)
      else
        var vs := s.definitions[found.value].versions;
        match Latest(vs, {Current})
        case None => Err(NotActive)
        case Some(v) =>
          if vs[v].content.Corrupt? then Err(CorruptSpec)
          else match InitialStage(vs[v].content.spec)
            case None => Err(InvalidDefinition)
            case Some(start) =>
              if !allowed then Err(Forbidden)
              else Ok(s.(instances := s.instances + [NewInstance(found.value, v, entity, start, now)]))
  }

  function WithTransitionKey(ts: seq<Transition>, key: string): (r: Option<Transition>)
    ensures r.Some? ==> r.value in ts && r.value.key == key
    ensures r.None? ==> forall t :: t in ts ==> t.key != key
  {
    if ts == [] then None else if ts[0].key == key then Some(ts[0]) else WithTransitionKey(ts[1..], key)
  }

  function Collected(data: map<string, string>, f: string): string {
    if f in data then data[f] else ""
  }

  predicate FieldsFilled(stage: Stage, data: map<string, string>) {
    forall f :: f in stage.requiredFields ==> Trim(Collected(data, f)) != ""
  }

  function Moved(inst: Instance, t: Transition, to: Stage, data: map<string, string>, now: int): Instance {
    inst.(stage := to.key, status := if to.isTerminal then Completed else Active, data := data,
          dueAt := if to.isTerminal then None else StageDueAt(to, now), escalatedAt := None,
          completedAt := if to.isTerminal then Some(now) else None,
          log := inst.log + [LogRow(Some(inst.stage), to.key, t.key)])
  }

  /** What comes with a transition request, and what the gates count. */
  datatype Request = Request(
    transition: string, rights: set<string>, fields: map<string, string>, attached: nat, approved: nat, now: int)

  /** The transition on one instance bound to `text`; `area` gives the default permission. */
  function Transitioned(inst: Instance, text: SpecText, area: string, q: Request): Result<Instance, Error> {
    if inst.status != Active then Err(NotActive)
    else if text.Corrupt? then Err(CorruptSpec)
    else
      var from := StageByKey(text.spec, inst.stage);
      match WithTransitionKey(TransitionsFrom(text.spec, inst.stage), q.transition)
      case None => Err(InvalidTransition)
      case Some(t) =>
        match StageByKey(text.spec, t.to)
        case None => Err(InvalidDefinition)
        case Some(to) =>
          var data := inst.data + q.fields;
          if t.permission.GetOr(area + ".edit") !in q.rights then Err(Forbidden)
          else if from.Some? && !FieldsFilled(from.value, data) then Err(MissingField)
          else if from.Some? && q.attached < |from.value.requiredDocuments| then Err(MissingDocuments)
          else if from.Some? && q.approved < from.value.requiredApprovals then Err(MissingApprovals)
          else Ok(Moved(inst, t, to, data, q.now))
  }

  /** The text of the version an instance is bound to. */
  function BoundText(defs: seq<Definition>, inst: Instance): SpecText {
    if inst.definition < |defs| && inst.version < |defs[inst.definition].versions|
    then defs[inst.definition].versions[inst.version].content
    else Corrupt("")
  }

  function AreaOf(s: Store, inst: Instance): string {
    if inst.definition < |s.definitions| then s.definitions[inst.definition].area else ""
  }

  function Performed(s: Store, i: nat, q: Request): Result<Store, Error> {
    if i >= |s.instances| then Err(NotFound)
    else
      var inst := s.instances[i];
      match Transitioned(inst, BoundText(s.definitions, inst), AreaOf(s, inst), q)
      case Err(e) => Err(e)
      case Ok(next) => Ok(s.(instances := s.instances[i := next]))
  }

  predicate Overdue(inst: Instance, now: int) {
    inst.status == Active && inst.dueAt.Some? && inst.dueAt.value < now && inst.escalatedAt.None?
  }

  predicate Escalates(defs: seq<Definition>, inst: Instance, now: int) {
    && Overdue(inst, now) && BoundText(defs, inst).Parsed?
    && var stage := StageByKey(BoundText(defs, inst).spec, inst.stage);
       stage.Some? && stage.value.escalation.Some?
  }

  function EscalatedOne(defs: seq<Definition>, inst: Instance, now: int): Instance {
    if Escalates(defs, inst, now) then inst.(escalatedAt := Some(now), escalations := inst.escalations + 1) else inst
  }

  function Touched(defs: seq<Definition>, batch: set<nat>, i: nat, inst: Instance, now: int): Instance {
    if i in batch then EscalatedOne(defs, inst, now) else inst
  }

  /** `batch` holds the positions of the overdue rows the query returned (at most 500, in no given order). */
  function Escalated(s: Store, batch: set<nat>, now: int): Store {
    s.(instances := seq(|s.instances|, i requires 0 <= i < |s.instances| =>
      Touched(s.definitions, batch, i, s.instances[i], now)))
  }

  function EscalatingAt(s: Store, batch: set<nat>, now: int): nat -> bool {
    (i: nat) => i < |s.instances| && i in batch && Escalates(s.definitions, s.instances[i], now)
  }

  function OverdueAt(s: Store, batch: set<nat>, now: int): nat -> bool {
    (i: nat) => i < |s.instances| && i in batch && Overdue(s.instances[i], now)
  }

  /** The instances once the job has gone through the first `n`. */
  ghost function Sweep(s: Store, batch: set<nat>, now: int, n: nat): seq<Instance> {
    seq(|s.instances|, i requires 0 <= i < |s.instances| =>
      if i < n then Touched(s.definitions, batch, i, s.instances[i], now) else s.instances[i])
  }

  lemma SweepStep(s: Store, batch: set<nat>, now: int, n: nat)
    requires n < |s.instances|
    ensures Sweep(s, batch, now, n)[n] == s.instances[n]
    ensures Sweep(s, batch, now, n + 1) == Sweep(s, batch, now, n)[n := Touched(s.definitions, batch, n, s.instances[n], now)]
  {
  }

  lemma SweepAll(s: Store, batch: set<nat>, now: int)
    ensures Sweep(s, batch, now, 0) == s.instances
    ensures Sweep(s, batch, now, |s.instances|) == Escalated(s, batch, now).instances
  {
  }

  // -------------------------------------------------------------------- the engine

  class Engine {
    var definitions: seq<Definition>
    var instances: seq<Instance>

    function State(): Store
      reads this
    {
      Store(definitions, instances)
    }

    constructor ()
      ensures State() == Store([], [])
    {
      definitions, instances := [], [];
    }

    method CreateWorkflow(key: string, area: string, allowed: bool) returns (error: Option<Error>)
      modifies this`definitions
      ensures State() == After(old(State()), Created(old(State()), key, area, allowed))
      ensures error == ErrorOf(Created(old(State()), key, area, allowed))
    {
      if !allowed { return Some(Forbidden); }
      var existing := FindKey(definitions, key);
      if existing.Some? { return Some(KeyTaken); }
      var def := Definition(key, area, Drafted, false, None, []);
      def := def.(versions := [Version(1, Draft, Parsed(STARTER_SPEC))]);
      definitions := definitions + [def];
      return None;
    }

    /** The draft is saved whatever the validator says of it; the report is the caller's. */
    method SaveDraft(d: nat, allowed: bool, text: SpecText, refs: Refs) returns (error: Option<Error>, report: Validation)
      modifies this`definitions
      ensures State() == After(old(State()), DraftSaved(old(State()), d, allowed, text))
      ensures error == ErrorOf(DraftSaved(old(State()), d, allowed, text))
      ensures error.None? ==> Describes(report, text, refs) && (report.Ok() <==> Activatable(text, refs))
    {
      report := Unreadable;
      if d >= |definitions| || definitions[d].archived { return Some(NotFound), report; }
      if !allowed { return Some(Forbidden), report; }
      var vs := definitions[d].versions;
      var draft := Latest(vs, {Draft});
      if draft.None? { return Some(NoDraft), report; }
      report := ParseAndValidate(text, refs);
      vs := vs[draft.value := vs[draft.value].(content := text)];
      definitions := definitions[d := definitions[d].(versions := vs)];
      return None, report;
    }

    method OpenRevision(d: nat, allowed: bool) returns (error: Option<Error>)
      modifies this`definitions
      ensures State() == After(old(State()), RevisionOpened(old(State()), d, allowed))
      ensures error == ErrorOf(RevisionOpened(old(State()), d, allowed))
    {
      if d >= |definitions| || definitions[d].archived { return Some(NotFound); }
      if !allowed { return Some(Forbidden); }
      var vs := definitions[d].versions;
      if Latest(vs, {Draft}).Some? { return Some(DraftExists); }
      var latest := Latest(vs, ALL);
      var seed := Parsed(STARTER_SPEC);
      if latest.Some? { seed := vs[latest.value].content; }
      definitions := definitions[d := definitions[d].(versions := vs + [Version(MaxNumber(vs) + 1, Draft, seed)])];
      return None;
    }

    method ActivateVersion(d: nat, v: nat, allowed: bool, refs: Refs) returns (error: Option<Error>)
      modifies this`definitions
      ensures State() == After(old(State()), VersionActivated(old(State()), d, v, allowed, refs))
      ensures error == ErrorOf(VersionActivated(old(State()), d, v, allowed, refs))
    {
      if d >= |definitions| || definitions[d].archived { return Some(NotFound); }
      if !allowed { return Some(Forbidden); }
      var def := definitions[d];
      if v >= |def.versions| { return Some(NotFound); }
      if def.versions[v].status == Current { return None; }
      if def.versions[v].status == Past { return Some(RetiredVersion); }
      var report := ParseAndValidate(def.versions[v].content, refs);
      if !report.Ok() { return Some(InvalidDefinition); }
      var vs := Retired(def.versions);
      vs := vs[v := def.versions[v].(status := Current)];
      definitions := definitions[d := def.(versions := vs, status := Activated, current := Some(v))];
      return None;
    }

    method ArchiveWorkflow(d: nat, allowed: bool) returns (error: Option<Error>)
      modifies this`definitions
      ensures State() == After(old(State()), DefinitionArchived(old(State()), d, allowed))
      ensures error == ErrorOf(DefinitionArchived(old(State()), d, allowed))
    {
      if d >= |definitions| || definitions[d].archived { return Some(NotFound); }
      if !allowed { return Some(Forbidden); }
      if exists i :: 0 <= i < |instances| && instances[i].definition == d && instances[i].status == Active {
        return Some(HasLiveInstances);
      }
      definitions := definitions[d := definitions[d].(archived := true, status := Archived)];
      return None;
    }

    method StartInstance(entity: Entity, ref: DefinitionRef, allowed: bool, now: int) returns (error: Option<Error>)
      modifies this`instances
      ensures State() == After(old(State()), Started(old(State()), entity, ref, allowed, now))
      ensures error == ErrorOf(Started(old(State()), entity, ref, allowed, now))
    {
      if exists i :: 0 <= i < |instances| && instances[i].entity == entity { return None; }
      var found := Lookup(State(), ref);
      if found.None? || definitions[found.value].archived { return Some(NotFound); }
      var vs := definitions[found.value].versions;
      var active := Latest(vs, {Current});
      if active.None? { return Some(NotActive); }
      if vs[active.value].content.Corrupt? { return Some(CorruptSpec); }
      var start := InitialStage(vs[active.value].content.spec);
      if start.None? { return Some(InvalidDefinition); }
      if !allowed { return Some(Forbidden); }
      var inst := NewInstance(found.value, active.value, entity, start.value, now);
      instances := instances + [inst];
      return None;
    }

    method PerformTransition(i: nat, q: Request) returns (error: Option<Error>)
      modifies this`instances
      ensures State() == After(old(State()), Performed(old(State()), i, q))
      ensures error == ErrorOf(Performed(old(State()), i, q))
    {
      if i >= |instances| { return Some(NotFound); }
      var inst := instances[i];
      if inst.status != Active { return Some(NotActive); }
      var text := BoundText(definitions, inst);
      if text.Corrupt? { return Some(CorruptSpec); }
      var from := StageByKey(text.spec, inst.stage);
      var transition := WithTransitionKey(TransitionsFrom(text.spec, inst.stage), q.transition);
      if transition.None? { return Some(InvalidTransition); }
      var t := transition.value;
      var target := StageByKey(text.spec, t.to);
      if target.None? { return Some(InvalidDefinition); }
      if t.permission.GetOr(AreaOf(State(), inst) + ".edit") !in q.rights { return Some(Forbidden); }
      var collected := inst.data + q.fields;
      if from.Some? {
        if !FieldsFilled(from.value, collected) { return Some(MissingField); }
        if q.attached < |from.value.requiredDocuments| { return Some(MissingDocuments); }
        if q.approved < from.value.requiredApprovals { return Some(MissingApprovals); }
      }
      var terminal := target.value.isTerminal;
      inst := inst.(stage := target.value.key, status := if terminal then Completed else Active, data := collected);
      inst := inst.(dueAt := if terminal then None else StageDueAt(target.value, q.now), escalatedAt := None);
      inst := inst.(completedAt := if terminal then Some(q.now) else None);
      inst := inst.(log := inst.log + [LogRow(Some(instances[i].stage), target.value.key, t.key)]);
      instances := instances[i := inst];
      return None;
    }

    method EscalateInstance(i: nat, now: int) returns (did: bool)
      requires i < |instances|
      modifies this`instances
      ensures instances == old(instances)[i := EscalatedOne(definitions, old(instances)[i], now)]
      ensures did == Escalates(definitions, old(instances)[i], now)
    {
      var inst := instances[i];
      if !Overdue(inst, now) { return false; }
      var text := BoundText(definitions, inst);
      if text.Corrupt? { return false; }
      var stage := StageByKey(text.spec, inst.stage);
      if stage.None? || stage.value.escalation.None? { return false; }
      instances := instances[i := inst.(escalatedAt := Some(now), escalations := inst.escalations + 1)];
      return true;
    }

    method EscalateOverdue(batch: set<nat>, now: int) returns (scanned: nat, escalated: nat)
      modifies this`instances
      ensures State() == Escalated(old(State()), batch, now)
      ensures escalated == CountIf(|old(instances)|, EscalatingAt(old(State()), batch, now))
      ensures scanned == CountIf(|old(instances)|, OverdueAt(old(State()), batch, now))
    {
      scanned, escalated := 0, 0;
      ghost var was := State();
      SweepAll(was, batch, now);
      for i := 0 to |instances|
        invariant instances == Sweep(was, batch, now, i)
        invariant escalated == CountIf(i, EscalatingAt(was, batch, now)) && scanned == CountIf(i, OverdueAt(was, batch, now))
      {
        SweepStep(was, batch, now, i);
        if i in batch && Overdue(instances[i], now) {
          scanned := scanned + 1;
          var did := EscalateInstance(i, now);
          if did { escalated := escalated + 1; }
        }
      }
    }
  }
}
