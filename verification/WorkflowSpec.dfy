/** Declarative workflow specs and their validation (src/lib/workflow/spec.ts). */
module WorkflowSpec {
  import opened Common

  datatype Escalation = Escalation(toRoles: seq<string>)

  datatype Stage = Stage(
    key: string, isInitial: bool, isTerminal: bool, slaHours: Option<real>, responsibleRoles: seq<string>,
    requiredFields: seq<string>, requiredDocuments: seq<string>, requiredApprovals: nat, escalation: Option<Escalation>)

  datatype Transition = Transition(key: string, from: string, to: string, permission: Option<string>)

  datatype Spec = Spec(stages: seq<Stage>, transitions: seq<Transition>)

  /** A stored definition either parses as a spec or is corrupt. */
  datatype SpecText = Parsed(spec: Spec) | Corrupt(raw: string)

  datatype Refs = Refs(permissions: set<string>, roles: set<string>)

  // ------------------------------------------------------------------- reading a spec

  function FirstInitial(stages: seq<Stage>): (r: Option<Stage>)
    ensures r.Some? ==> r.value in stages && r.value.isInitial
    ensures r.None? ==> forall s :: s in stages ==> !s.isInitial
  {
    if stages == [] then None else if stages[0].isInitial then Some(stages[0]) else FirstInitial(stages[1..])
  }

  function FirstWithKey(stages: seq<Stage>, key: string): (r: Option<Stage>)
    ensures r.Some? ==> r.value in stages && r.value.key == key
    ensures r.None? <==> forall s :: s in stages ==> s.key != key
  {
    if stages == [] then None else if stages[0].key == key then Some(stages[0]) else FirstWithKey(stages[1..], key)
  }

  function InitialStage(spec: Spec): Option<Stage> {
    FirstInitial(spec.stages)
  }

  function StageByKey(spec: Spec, key: string): Option<Stage> {
    FirstWithKey(spec.stages, key)
  }

  function Leaving(ts: seq<Transition>, key: string): (r: seq<Transition>)
    ensures forall t :: t in r <==> t in ts && (t.from == key || t.from == "*")
  {
    if ts == [] then []
    else (if ts[0].from == key || ts[0].from == "*" then [ts[0]] else []) + Leaving(ts[1..], key)
  }

  predicate Terminal(spec: Spec, key: string) {
    StageByKey(spec, key).Some? && StageByKey(spec, key).value.isTerminal
  }

  /** Transitions available from a stage; none from a terminal or unknown one. */
  function TransitionsFrom(spec: Spec, key: string): seq<Transition> {
    var s := StageByKey(spec, key);
    if s.None? || s.value.isTerminal then [] else Leaving(spec.transitions, key)
  }

  // ------------------------------------------------------------------- reachability

  predicate Hop(spec: Spec, a: string, b: string) {
    exists t :: t in TransitionsFrom(spec, a) && t.to == b
  }

  /** The stage that carries a key: the first one, should there be several. */
  lemma {:induction false} FirstWithKeyIs(stages: seq<Stage>, key: string, i: nat)
    requires i < |stages| && stages[i].key == key && forall j :: 0 <= j < i ==> stages[j].key != key
    ensures FirstWithKey(stages, key) == Some(stages[i])
    decreases |stages|
  {
    if i > 0 { FirstWithKeyIs(stages[1..], key, i - 1); }
  }

  lemma {:induction false} FirstInitialIs(stages: seq<Stage>, i: nat)
    requires i < |stages| && stages[i].isInitial && forall j :: 0 <= j < i ==> !stages[j].isInitial
    ensures FirstInitial(stages) == Some(stages[i])
    decreases |stages|
  {
    if i > 0 { FirstInitialIs(stages[1..], i - 1); }
  }

  /** A stage that may be left, and a transition that leaves it by name or from anywhere. */
  predicate Offers(spec: Spec, key: string, t: Transition) {
    && t in spec.transitions && (t.from == key || t.from == "*")
    && exists i :: 0 <= i < |spec.stages| && spec.stages[i].key == key && !spec.stages[i].isTerminal
                   && forall j :: 0 <= j < i ==> spec.stages[j].key != key
  }

  lemma {:induction false} FoundFirst(stages: seq<Stage>, key: string) returns (i: nat)
    requires FirstWithKey(stages, key).Some?
    ensures i < |stages| && FirstWithKey(stages, key) == Some(stages[i]) && stages[i].key == key
    ensures forall j :: 0 <= j < i ==> stages[j].key != key
    decreases |stages|
  {
    if stages[0].key == key { return 0; }
    var k := FoundFirst(stages[1..], key);
    i := k + 1;
  }

  /** The transitions on offer from a stage are those of the spec that leave it, wildcards included, unless it is terminal or unknown. */
  lemma OffersExactly(spec: Spec, key: string, t: Transition)
    ensures t in TransitionsFrom(spec, key) <==> Offers(spec, key, t)
  {
    if StageByKey(spec, key).Some? {
      var i := FoundFirst(spec.stages, key);
    }
    if i :| 0 <= i < |spec.stages| && spec.stages[i].key == key && !spec.stages[i].isTerminal
            && forall j :: 0 <= j < i ==> spec.stages[j].key != key {
      FirstWithKeyIs(spec.stages, key, i);
    }
  }

  /** One hop leads from `a` to `b` exactly when a transition offered at `a` does. */
  lemma HopExactly(spec: Spec, a: string, b: string)
    ensures Hop(spec, a, b) <==> exists t :: Offers(spec, a, t) && t.to == b
  {
    if Hop(spec, a, b) {
      var t :| t in TransitionsFrom(spec, a) && t.to == b;
      OffersExactly(spec, a, t);
    }
    if t :| Offers(spec, a, t) && t.to == b { OffersExactly(spec, a, t); }
  }

  predicate IsPath(spec: Spec, path: seq<string>) {
    path != [] && forall i :: 0 <= i < |path| - 1 ==> Hop(spec, path[i], path[i + 1])
  }

  ghost predicate Reaches(spec: Spec, a: string, b: string) {
    exists path :: IsPath(spec, path) && path[0] == a && path[|path| - 1] == b
  }

  lemma ReachesSelf(spec: Spec, a: string)
    ensures Reaches(spec, a, a)
  {
    assert IsPath(spec, [a]);
  }

  lemma PathsJoin(spec: Spec, p: seq<string>, q: seq<string>)
    requires IsPath(spec, p) && IsPath(spec, q) && p[|p| - 1] == q[0]
    ensures var path := p + q[1..];
            IsPath(spec, path) && path[0] == p[0] && path[|path| - 1] == q[|q| - 1]
  {
    var path := p + q[1..];
    forall i | 0 <= i < |path| - 1
      ensures Hop(spec, path[i], path[i + 1])
    {
      if i < |p| - 1 { assert Hop(spec, p[i], p[i + 1]); }
      else {
        var j := i - |p| + 1;
        assert path[i] == q[j] && path[i + 1] == q[j + 1] && Hop(spec, q[j], q[j + 1]);
      }
    }
  }

  lemma ReachesTransitive(spec: Spec, a: string, b: string, c: string)
    requires Reaches(spec, a, b) && Reaches(spec, b, c)
    ensures Reaches(spec, a, c)
  {
    var p :| IsPath(spec, p) && p[0] == a && p[|p| - 1] == b;
    var q :| IsPath(spec, q) && q[0] == b && q[|q| - 1] == c;
    PathsJoin(spec, p, q);
  }

  lemma ReachesHop(spec: Spec, a: string, b: string, c: string)
    requires Reaches(spec, a, b) && Hop(spec, b, c)
    ensures Reaches(spec, a, c)
  {
    assert IsPath(spec, [b, c]);
    assert Reaches(spec, b, c);
    ReachesTransitive(spec, a, b, c);
  }

  /** A set closed under hops holds everything reachable from its members. */
  lemma {:induction false} ClosedHoldsReachable(spec: Spec, visited: set<string>, path: seq<string>)
    requires forall a, b :: a in visited && Hop(spec, a, b) ==> b in visited
    requires IsPath(spec, path) && path[0] in visited
    ensures path[|path| - 1] in visited
    decreases |path|
  {
    if |path| > 1 {
      var tail := path[1..];
      assert Hop(spec, path[0], path[1]);
      forall i | 0 <= i < |tail| - 1
        ensures Hop(spec, tail[i], tail[i + 1])
      {
        assert Hop(spec, path[i + 1], path[i + 1 + 1]);
      }
      ClosedHoldsReachable(spec, visited, tail);
    }
  }

  ghost function Targets(spec: Spec): set<string> {
    set t | t in spec.transitions :: t.to
  }

  /** The targets of a stage's transitions join the visited set and the queue. */
  method Visit(spec: Spec, cur: string, visited: set<string>, queue: seq<string>)
      returns (visited': set<string>, queue': seq<string>)
    ensures forall b :: b in visited' <==> b in visited || Hop(spec, cur, b)
    ensures forall b :: b in queue' <==> b in queue || (b in visited' && b !in visited)
    ensures queue' == queue || visited < visited'
    ensures visited' <= visited + Targets(spec)
    ensures visited' == visited ==> queue' == queue
  {
    var ts := TransitionsFrom(spec, cur);
    visited', queue' := visited, queue;
    for i := 0 to |ts|
      invariant visited <= visited' <= visited + Targets(spec)
      invariant forall b :: b in visited' <==> b in visited || exists j :: 0 <= j < i && ts[j].to == b
      invariant forall b :: b in queue' <==> b in queue || (b in visited' && b !in visited)
      invariant visited' == visited ==> queue' == queue
    {
      assert ts[i] in ts && ts[i] in spec.transitions;
      if ts[i].to !in visited' {
        visited' := visited' + {ts[i].to};
        queue' := queue' + [ts[i].to];
      }
    }
    forall b
      ensures Hop(spec, cur, b) <==> exists j :: 0 <= j < |ts| && ts[j].to == b
    {
      if t :| t in ts && t.to == b { var j :| 0 <= j < |ts| && ts[j] == t; }
      if j :| 0 <= j < |ts| && ts[j].to == b { assert ts[j] in ts; }
    }
  }

  ghost predicate Explored(spec: Spec, start: string, visited: set<string>, queue: seq<string>) {
    && start in visited
    && (forall k :: k in visited ==> Reaches(spec, start, k))
    && (forall k :: k in queue ==> k in visited)
    && (forall a, b :: a in visited && a !in queue && Hop(spec, a, b) ==> b in visited)
  }

  lemma ExploredStep(spec: Spec, start: string, visited: set<string>, queue: seq<string>, visited': set<string>, queue': seq<string>)
    requires Explored(spec, start, visited, queue) && queue != []
    requires forall b :: b in visited' <==> b in visited || Hop(spec, queue[0], b)
    requires forall b :: b in queue' <==> b in queue[1..] || (b in visited' && b !in visited)
    ensures Explored(spec, start, visited', queue')
  {
    forall b | b in visited' && b !in visited
      ensures Reaches(spec, start, b)
    {
      ReachesHop(spec, start, queue[0], b);
    }
    forall a, b | a in visited' && a !in queue' && Hop(spec, a, b)
      ensures b in visited'
    {
      if a in queue { assert a == queue[0]; }
    }
  }

  /** Breadth-first search: the stages reachable from `start`, exactly. */
  method ReachableFrom(spec: Spec, start: string) returns (reachable: set<string>)
    ensures forall k :: k in reachable <==> Reaches(spec, start, k)
  {
    reachable := {start};
    var queue := [start];
    ReachesSelf(spec, start);
    while queue != []
      invariant Explored(spec, start, reachable, queue)
      decreases Targets(spec) - reachable, |queue|
    {
      var cur := queue[0];
      ghost var before, was := reachable, queue;
      var more, rest := Visit(spec, cur, reachable, queue[1..]);
      assert forall b :: b in was <==> b == cur || b in was[1..];
      ExploredStep(spec, start, before, was, more, rest);
      reachable, queue := more, rest;
    }
    forall k | Reaches(spec, start, k)
      ensures k in reachable
    {
      var path :| IsPath(spec, path) && path[0] == start && path[|path| - 1] == k;
      ClosedHoldsReachable(spec, reachable, path);
    }
  }

  ghost predicate ReachesTerminal(spec: Spec, start: string) {
    exists k :: Reaches(spec, start, k) && Terminal(spec, k)
  }

  /** The same search, stopping at the first terminal stage. */
  method CanReachTerminal(spec: Spec, start: string) returns (yes: bool)
    ensures yes <==> ReachesTerminal(spec, start)
  {
    var visited := {start};
    var queue := [start];
    ReachesSelf(spec, start);
    while queue != []
      invariant Explored(spec, start, visited, queue)
      invariant forall k :: k in visited && k !in queue ==> !Terminal(spec, k)
      decreases Targets(spec) - visited, |queue|
    {
      var cur := queue[0];
      if Terminal(spec, cur) { return true; }
      ghost var before, was := visited, queue;
      var more, rest := Visit(spec, cur, visited, queue[1..]);
      assert forall b :: b in was <==> b == cur || b in was[1..];
      ExploredStep(spec, start, before, was, more, rest);
      visited, queue := more, rest;
    }
    forall k | Reaches(spec, start, k)
      ensures k in visited
    {
      var path :| IsPath(spec, path) && path[0] == start && path[|path| - 1] == k;
      ClosedHoldsReachable(spec, visited, path);
    }
    return false;
  }

  // --------------------------------------------------------------------- validation

  /** What an error names: a stage or a transition, and what is wrong about it. */
  datatype Issue =
    | DuplicateStage(key: string) | NoInitial | MultipleInitial | NoTerminal
    | DuplicateTransition(key: string) | UnknownFrom(key: string, stage: string) | TargetsAny(key: string)
    | UnknownTo(key: string, stage: string) | LeavesTerminal(key: string, stage: string)
    | UnknownPermission(key: string, permission: string)
    | UnknownRole(key: string, role: string) | UnknownEscalationRole(key: string, role: string)
    | DeadEnd(key: string) | NoWayToTerminal

  datatype Warning = EndsAtOnce(key: string) | Unreachable(key: string)

  function Initials(stages: seq<Stage>): seq<Stage> {
    if stages == [] then [] else Initials(stages[..|stages| - 1]) + if stages[|stages| - 1].isInitial then [stages[|stages| - 1]] else []
  }

  predicate DistinctStages(spec: Spec) {
    forall i, j :: 0 <= i < j < |spec.stages| ==> spec.stages[i].key != spec.stages[j].key
  }

  predicate DistinctTransitions(spec: Spec) {
    forall i, j :: 0 <= i < j < |spec.transitions| ==> spec.transitions[i].key != spec.transitions[j].key
  }

  /** Both ends of the transition exist, and it does not leave a terminal stage by name. */
  predicate WellPlaced(spec: Spec, t: Transition) {
    && (t.from == "*" || (StageByKey(spec, t.from).Some? && !Terminal(spec, t.from)))
    && t.to != "*" && StageByKey(spec, t.to).Some?
  }

  predicate PermissionKnown(t: Transition, permissions: set<string>) {
    t.permission.GetOr("") == "" || t.permission.value in permissions
  }

  predicate RolesKnown(s: Stage, roles: set<string>) {
    && (forall r :: r in s.responsibleRoles ==> r in roles)
    && (s.escalation.Some? ==> forall r :: r in s.escalation.value.toRoles ==> r in roles)
  }

  predicate NoDeadEnd(spec: Spec) {
    forall s :: s in spec.stages && !s.isTerminal ==> TransitionsFrom(spec, s.key) != []
  }

  /** The part of validity that does not depend on the live catalog of permissions and roles. */
  ghost predicate GraphValid(spec: Spec) {
    && DistinctStages(spec) && |Initials(spec.stages)| == 1 && (exists s :: s in spec.stages && s.isTerminal)
    && DistinctTransitions(spec) && (forall t :: t in spec.transitions ==> WellPlaced(spec, t))
    && NoDeadEnd(spec) && ReachesTerminal(spec, Initials(spec.stages)[0].key)
  }

  ghost predicate Valid(spec: Spec, refs: Refs) {
    && GraphValid(spec)
    && (forall t :: t in spec.transitions ==> PermissionKnown(t, refs.permissions))
    && (forall s :: s in spec.stages ==> RolesKnown(s, refs.roles))
  }

  // Which errors each stage and each transition causes.

  predicate StageRepeats(spec: Spec, i: nat) {
    i < |spec.stages| && exists j :: 0 <= j < i && spec.stages[j].key == spec.stages[i].key
  }

  predicate StageBlamed(spec: Spec, i: nat, x: Issue) {
    StageRepeats(spec, i) && x == DuplicateStage(spec.stages[i].key)
  }

  predicate Repeats(ts: seq<Transition>, i: nat) {
    i < |ts| && exists j :: 0 <= j < i && ts[j].key == ts[i].key
  }

  predicate Blames(spec: Spec, permissions: set<string>, t: Transition, x: Issue) {
    match x
    case UnknownFrom(k, stage) => k == t.key && stage == t.from && t.from != "*" && StageByKey(spec, t.from).None?
    case TargetsAny(k) => k == t.key && t.to == "*"
    case UnknownTo(k, stage) => k == t.key && stage == t.to && t.to != "*" && StageByKey(spec, t.to).None?
    case LeavesTerminal(k, stage) => k == t.key && stage == t.from && t.from != "*" && Terminal(spec, t.from)
    case UnknownPermission(k, permission) => k == t.key && t.permission == Some(permission) && permission != "" && permission !in permissions
    case _ => false
  }

  predicate TransitionBlamed(spec: Spec, permissions: set<string>, i: nat, x: Issue) {
    i < |spec.transitions| &&
    (Blames(spec, permissions, spec.transitions[i], x)
     || (Repeats(spec.transitions, i) && x == DuplicateTransition(spec.transitions[i].key)))
  }

  predicate RolesBlame(s: Stage, roles: set<string>, x: Issue) {
    match x
    case UnknownRole(k, role) => k == s.key && role in s.responsibleRoles && role !in roles
    case UnknownEscalationRole(k, role) => k == s.key && s.escalation.Some? && role in s.escalation.value.toRoles && role !in roles
    case _ => false
  }

  predicate RolesBlamed(spec: Spec, roles: set<string>, i: nat, x: Issue) {
    i < |spec.stages| && RolesBlame(spec.stages[i], roles, x)
  }

  predicate CountBlamed(spec: Spec, x: Issue) {
    match x
    case NoInitial => |Initials(spec.stages)| == 0
    case MultipleInitial => |Initials(spec.stages)| > 1
    case NoTerminal => forall s :: s in spec.stages ==> !s.isTerminal
    case _ => false
  }

  /** The errors found without looking at paths. */
  ghost predicate Structural(spec: Spec, refs: Refs, x: Issue) {
    || (exists i: nat :: StageBlamed(spec, i, x))
    || CountBlamed(spec, x)
    || (exists i: nat :: TransitionBlamed(spec, refs.permissions, i, x))
    || (exists i: nat :: RolesBlamed(spec, refs.roles, i, x))
  }

  ghost predicate Clean(spec: Spec, refs: Refs) {
    forall x :: !Structural(spec, refs, x)
  }

  predicate EndBlamed(spec: Spec, i: nat, x: Issue) {
    i < |spec.stages| && x == DeadEnd(spec.stages[i].key)
    && !spec.stages[i].isTerminal && TransitionsFrom(spec, spec.stages[i].key) == []
  }

  ghost predicate FinishBlamed(spec: Spec, x: Issue) {
    x.NoWayToTerminal? && |Initials(spec.stages)| == 1 && !ReachesTerminal(spec, Initials(spec.stages)[0].key)
  }

  /** Every error of the validator; paths are only looked at in a spec that is clean otherwise. */
  ghost predicate Broken(spec: Spec, refs: Refs, x: Issue) {
    || Structural(spec, refs, x)
    || (Clean(spec, refs) &&
        ((exists i: nat :: EndBlamed(spec, i, x)) || FinishBlamed(spec, x)))
  }

  predicate EndsThere(spec: Spec, i: nat, w: Warning) {
    i < |spec.stages| && spec.stages[i].isInitial && spec.stages[i].isTerminal && w == EndsAtOnce(spec.stages[i].key)
  }

  ghost predicate OutOfReach(spec: Spec, i: nat, w: Warning) {
    i < |spec.stages| && w == Unreachable(spec.stages[i].key)
    && Initials(spec.stages) != [] && !Reaches(spec, Initials(spec.stages)[0].key, spec.stages[i].key)
  }

  ghost predicate Warned(spec: Spec, refs: Refs, w: Warning) {
    (exists i: nat :: EndsThere(spec, i, w)) || (Clean(spec, refs) && exists i: nat :: OutOfReach(spec, i, w))
  }

  // ----------------------------------------------------------------- the validator

  method CheckStageKeys(spec: Spec) returns (issues: seq<Issue>)
    ensures forall x :: x in issues <==> exists i: nat :: StageBlamed(spec, i, x)
  {
    var seen: set<string> := {};
    issues := [];
    for i := 0 to |spec.stages|
      invariant forall k :: k in seen <==> exists j :: 0 <= j < i && spec.stages[j].key == k
      invariant forall x :: x in issues <==> exists a: nat :: a < i && StageBlamed(spec, a, x)
    {
      if spec.stages[i].key in seen {
        assert StageBlamed(spec, i, DuplicateStage(spec.stages[i].key));
        issues := issues + [DuplicateStage(spec.stages[i].key)];
      }
      seen := seen + {spec.stages[i].key};
    }
  }

  method CheckTransition(spec: Spec, t: Transition, permissions: set<string>) returns (issues: seq<Issue>)
    ensures forall x :: x in issues <==> Blames(spec, permissions, t, x)
  {
    issues := [];
    if t.from != "*" && StageByKey(spec, t.from).None? { issues := issues + [UnknownFrom(t.key, t.from)]; }
    if t.to == "*" { issues := issues + [TargetsAny(t.key)]; }
    else if StageByKey(spec, t.to).None? { issues := issues + [UnknownTo(t.key, t.to)]; }
    if t.from != "*" && Terminal(spec, t.from) { issues := issues + [LeavesTerminal(t.key, t.from)]; }
    if t.permission.GetOr("") != "" && t.permission.value !in permissions {
      issues := issues + [UnknownPermission(t.key, t.permission.value)];
    }
  }

  method CheckTransitions(spec: Spec, permissions: set<string>) returns (issues: seq<Issue>)
    ensures forall x :: x in issues <==> exists i: nat :: TransitionBlamed(spec, permissions, i, x)
  {
    var ts := spec.transitions;
    var seen: set<string> := {};
    issues := [];
    for i := 0 to |ts|
      invariant forall k :: k in seen <==> exists j :: 0 <= j < i && ts[j].key == k
      invariant forall x :: x in issues <==> exists a: nat :: a < i && TransitionBlamed(spec, permissions, a, x)
    {
      ghost var before := issues;
      assert ts[i].key in seen <==> Repeats(ts, i);
      var more := CheckTransition(spec, ts[i], permissions);
      if ts[i].key in seen { issues := issues + [DuplicateTransition(ts[i].key)]; }
      seen := seen + {ts[i].key};
      issues := issues + more;
      assert forall x :: x in issues <==> x in before || TransitionBlamed(spec, permissions, i, x);
    }
  }

  method CheckStageRoles(s: Stage, roles: set<string>) returns (issues: seq<Issue>)
    ensures forall x :: x in issues <==> RolesBlame(s, roles, x)
  {
    issues := [];
    for i := 0 to |s.responsibleRoles|
      invariant forall x :: x in issues <==> x.UnknownRole? && x.key == s.key && x.role in s.responsibleRoles[..i] && x.role !in roles
    {
      assert s.responsibleRoles[..i + 1] == s.responsibleRoles[..i] + [s.responsibleRoles[i]];
      if s.responsibleRoles[i] !in roles { issues := issues + [UnknownRole(s.key, s.responsibleRoles[i])]; }
    }
    assert s.responsibleRoles[..|s.responsibleRoles|] == s.responsibleRoles;
    var toRoles := if s.escalation.Some? then s.escalation.value.toRoles else [];
    ghost var responsible := issues;
    for i := 0 to |toRoles|
      invariant forall x :: x in issues <==>
        (x in responsible || (x.UnknownEscalationRole? && x.key == s.key && x.role in toRoles[..i] && x.role !in roles))
    {
      assert toRoles[..i + 1] == toRoles[..i] + [toRoles[i]];
      if toRoles[i] !in roles { issues := issues + [UnknownEscalationRole(s.key, toRoles[i])]; }
    }
    assert toRoles[..|toRoles|] == toRoles;
  }

  method CheckRoles(spec: Spec, roles: set<string>) returns (issues: seq<Issue>)
    ensures forall x :: x in issues <==> exists i: nat :: RolesBlamed(spec, roles, i, x)
  {
    issues := [];
    for i := 0 to |spec.stages|
      invariant forall x :: x in issues <==> exists a: nat :: a < i && RolesBlamed(spec, roles, a, x)
    {
      ghost var before := issues;
      var more := CheckStageRoles(spec.stages[i], roles);
      issues := issues + more;
      assert forall x :: x in issues <==> x in before || RolesBlamed(spec, roles, i, x);
    }
  }

  method CheckCounts(spec: Spec) returns (issues: seq<Issue>)
    ensures forall x :: x in issues <==> CountBlamed(spec, x)
  {
    var initials := Initials(spec.stages);
    issues := [];
    if |initials| == 0 { issues := issues + [NoInitial]; }
    if |initials| > 1 { issues := issues + [MultipleInitial]; }
    if !exists s :: s in spec.stages && s.isTerminal { issues := issues + [NoTerminal]; }
  }

  predicate Unvisited(spec: Spec, reachable: set<string>, i: nat, w: Warning) {
    i < |spec.stages| && w == Unreachable(spec.stages[i].key) && spec.stages[i].key !in reachable
  }

  predicate EndBlamedBefore(spec: Spec, n: nat, x: Issue) {
    exists i: nat :: i < n && EndBlamed(spec, i, x)
  }

  lemma EndBlamedStep(spec: Spec, n: nat)
    ensures forall x :: EndBlamedBefore(spec, n + 1, x) <==> EndBlamedBefore(spec, n, x) || EndBlamed(spec, n, x)
  {
  }

  method CheckDeadEnds(spec: Spec) returns (issues: seq<Issue>)
    ensures forall x :: x in issues <==> EndBlamedBefore(spec, |spec.stages|, x)
  {
    issues := [];
    for i := 0 to |spec.stages|
      invariant forall x :: x in issues <==> EndBlamedBefore(spec, i, x)
    {
      EndBlamedStep(spec, i);
      ghost var before := issues;
      var s := spec.stages[i];
      if !s.isTerminal && TransitionsFrom(spec, s.key) == [] { issues := issues + [DeadEnd(s.key)]; }
      assert forall x :: x in issues <==> x in before || EndBlamed(spec, i, x);
    }
  }

  method CheckReach(spec: Spec, reachable: set<string>) returns (warnings: seq<Warning>)
    ensures forall w :: w in warnings <==> exists i: nat :: Unvisited(spec, reachable, i, w)
  {
    warnings := [];
    for i := 0 to |spec.stages|
      invariant forall w :: w in warnings <==> exists a: nat :: a < i && Unvisited(spec, reachable, a, w)
    {
      ghost var before := warnings;
      if spec.stages[i].key !in reachable { warnings := warnings + [Unreachable(spec.stages[i].key)]; }
      assert forall w :: w in warnings <==> w in before || Unvisited(spec, reachable, i, w);
    }
  }

  method CheckStarts(spec: Spec) returns (warnings: seq<Warning>)
    ensures forall w :: w in warnings <==> exists i: nat :: EndsThere(spec, i, w)
  {
    warnings := [];
    for i := 0 to |spec.stages|
      invariant forall w :: w in warnings <==> exists a: nat :: a < i && EndsThere(spec, a, w)
    {
      ghost var before := warnings;
      if spec.stages[i].isInitial && spec.stages[i].isTerminal { warnings := warnings + [EndsAtOnce(spec.stages[i].key)]; }
      assert forall w :: w in warnings <==> w in before || EndsThere(spec, i, w);
    }
  }

  /** The graph part: dead ends, stages out of reach, and a way from the start to an end. */
  method CheckPaths(spec: Spec) returns (issues: seq<Issue>, warnings: seq<Warning>)
    requires |Initials(spec.stages)| == 1
    ensures forall x :: x in issues <==> (exists i: nat :: EndBlamed(spec, i, x)) || FinishBlamed(spec, x)
    ensures forall w :: w in warnings <==> exists i: nat :: OutOfReach(spec, i, w)
  {
    var start := Initials(spec.stages)[0].key;
    var reachable := ReachableFrom(spec, start);
    issues := CheckDeadEnds(spec);
    assert forall x :: EndBlamedBefore(spec, |spec.stages|, x) <==> exists i: nat :: EndBlamed(spec, i, x);
    warnings := CheckReach(spec, reachable);
    assert forall i: nat, w :: OutOfReach(spec, i, w) <==> Unvisited(spec, reachable, i, w);
    var finishes := CanReachTerminal(spec, start);
    if !finishes { issues := issues + [NoWayToTerminal]; }
  }

  /** The validator reports exactly the errors and warnings there are, and no error exactly in the valid specs. */
  method ValidateSpec(spec: Spec, refs: Refs) returns (issues: seq<Issue>, warnings: seq<Warning>)
    ensures forall x :: x in issues <==> Broken(spec, refs, x)
    ensures forall w :: w in warnings <==> Warned(spec, refs, w)
    ensures issues == [] <==> Valid(spec, refs)
  {
    var inStages := CheckStageKeys(spec);
    var inCounts := CheckCounts(spec);
    warnings := CheckStarts(spec);
    var inTransitions := CheckTransitions(spec, refs.permissions);
    var inRoles := CheckRoles(spec, refs.roles);
    issues := inStages + inCounts + inTransitions + inRoles;
    assert forall x :: x in issues <==> Structural(spec, refs, x);
    EmptyIsClean(spec, refs, issues);
    CleanIsSound(spec, refs);
    if issues == [] && |Initials(spec.stages)| == 1 {
      var onPaths, unreached := CheckPaths(spec);
      issues := onPaths;
      warnings := warnings + unreached;
    }
    NothingBroken(spec, refs, issues);
  }

  lemma EmptyIsClean(spec: Spec, refs: Refs, issues: seq<Issue>)
    requires forall x :: x in issues <==> Structural(spec, refs, x)
    ensures issues == [] <==> Clean(spec, refs)
  {
    if issues != [] { assert issues[0] in issues; }
  }

  predicate Sound(spec: Spec, permissions: set<string>, i: nat) {
    i < |spec.transitions| && !Repeats(spec.transitions, i)
    && WellPlaced(spec, spec.transitions[i]) && PermissionKnown(spec.transitions[i], permissions)
  }

  lemma UnblamedIsSound(spec: Spec, permissions: set<string>, i: nat)
    requires i < |spec.transitions|
    ensures Sound(spec, permissions, i) <==> forall x :: !TransitionBlamed(spec, permissions, i, x)
  {
    var t := spec.transitions[i];
    if !Sound(spec, permissions, i) {
      var x :=
        if Repeats(spec.transitions, i) then DuplicateTransition(t.key)
        else if t.from != "*" && StageByKey(spec, t.from).None? then UnknownFrom(t.key, t.from)
        else if t.from != "*" && Terminal(spec, t.from) then LeavesTerminal(t.key, t.from)
        else if t.to == "*" then TargetsAny(t.key)
        else if StageByKey(spec, t.to).None? then UnknownTo(t.key, t.to)
        else UnknownPermission(t.key, t.permission.GetOr(""));
      assert TransitionBlamed(spec, permissions, i, x);
    }
  }

  lemma AllSound(spec: Spec, permissions: set<string>)
    ensures (forall a :: 0 <= a < |spec.transitions| ==> Sound(spec, permissions, a)) <==>
      && DistinctTransitions(spec)
      && forall t :: t in spec.transitions ==> WellPlaced(spec, t) && PermissionKnown(t, permissions)
  {
    var ts := spec.transitions;
    if forall a :: 0 <= a < |ts| ==> Sound(spec, permissions, a) {
      forall i, j | 0 <= i < j < |ts|
        ensures ts[i].key != ts[j].key
      {
        assert Sound(spec, permissions, j) && !Repeats(ts, j);
      }
      forall t | t in ts
        ensures WellPlaced(spec, t) && PermissionKnown(t, permissions)
      {
        var a :| 0 <= a < |ts| && ts[a] == t;
        assert Sound(spec, permissions, a);
      }
    }
  }

  lemma TransitionsUnblamed(spec: Spec, permissions: set<string>)
    ensures (forall i: nat, x :: !TransitionBlamed(spec, permissions, i, x)) <==>
      && DistinctTransitions(spec)
      && forall t :: t in spec.transitions ==> WellPlaced(spec, t) && PermissionKnown(t, permissions)
  {
    AllSound(spec, permissions);
    if forall i: nat, x :: !TransitionBlamed(spec, permissions, i, x) {
      forall i | 0 <= i < |spec.transitions| ensures Sound(spec, permissions, i) { UnblamedIsSound(spec, permissions, i); }
    }
    if forall i :: 0 <= i < |spec.transitions| ==> Sound(spec, permissions, i) {
      forall i: nat, x ensures !TransitionBlamed(spec, permissions, i, x) {
        if i < |spec.transitions| { UnblamedIsSound(spec, permissions, i); }
      }
    }
  }

  lemma RolesUnblamed(spec: Spec, roles: set<string>)
    ensures (forall i: nat, x :: !RolesBlamed(spec, roles, i, x)) <==> forall s :: s in spec.stages ==> RolesKnown(s, roles)
  {
    if forall i: nat, x :: !RolesBlamed(spec, roles, i, x) {
      forall s | s in spec.stages
        ensures RolesKnown(s, roles)
      {
        var i :| 0 <= i < |spec.stages| && spec.stages[i] == s;
        StageRolesUnblamed(spec, roles, i);
      }
    }
    if forall s :: s in spec.stages ==> RolesKnown(s, roles) {
      forall i: nat, x ensures !RolesBlamed(spec, roles, i, x) {
        if i < |spec.stages| { assert RolesKnown(spec.stages[i], roles); }
      }
    }
  }

  lemma StageRolesUnblamed(spec: Spec, roles: set<string>, i: nat)
    requires i < |spec.stages| && forall x :: !RolesBlamed(spec, roles, i, x)
    ensures RolesKnown(spec.stages[i], roles)
  {
    var s := spec.stages[i];
    forall r ensures r in s.responsibleRoles ==> r in roles { assert !RolesBlamed(spec, roles, i, UnknownRole(s.key, r)); }
    forall r ensures s.escalation.Some? && r in s.escalation.value.toRoles ==> r in roles {
      assert !RolesBlamed(spec, roles, i, UnknownEscalationRole(s.key, r));
    }
  }

  lemma StagesUnblamed(spec: Spec)
    ensures (forall i: nat, x :: !StageBlamed(spec, i, x)) <==> DistinctStages(spec)
  {
    if forall i: nat, x :: !StageBlamed(spec, i, x) {
      forall i, j | 0 <= i < j < |spec.stages|
        ensures spec.stages[i].key != spec.stages[j].key
      {
        assert !StageBlamed(spec, j, DuplicateStage(spec.stages[j].key));
      }
    }
  }

  lemma CountsUnblamed(spec: Spec)
    ensures (forall x :: !CountBlamed(spec, x)) <==>
              |Initials(spec.stages)| == 1 && exists s :: s in spec.stages && s.isTerminal
  {
    assert forall x :: CountBlamed(spec, x) ==> x in {NoInitial, MultipleInitial, NoTerminal};
    if forall x :: !CountBlamed(spec, x) {
      assert !CountBlamed(spec, NoInitial) && !CountBlamed(spec, MultipleInitial) && !CountBlamed(spec, NoTerminal);
    }
  }

  /** The part of validity that no path decides. */
  predicate SoundParts(spec: Spec, refs: Refs) {
    && DistinctStages(spec) && |Initials(spec.stages)| == 1 && (exists s :: s in spec.stages && s.isTerminal)
    && DistinctTransitions(spec)
    && (forall t :: t in spec.transitions ==> WellPlaced(spec, t) && PermissionKnown(t, refs.permissions))
    && (forall s :: s in spec.stages ==> RolesKnown(s, refs.roles))
  }

  lemma CleanSplits(spec: Spec, refs: Refs)
    ensures Clean(spec, refs) <==>
      && (forall i: nat, x :: !StageBlamed(spec, i, x)) && (forall x :: !CountBlamed(spec, x))
      && (forall i: nat, x :: !TransitionBlamed(spec, refs.permissions, i, x))
      && (forall i: nat, x :: !RolesBlamed(spec, refs.roles, i, x))
  {
    if Clean(spec, refs) {
      forall i: nat, x
        ensures !StageBlamed(spec, i, x) && !TransitionBlamed(spec, refs.permissions, i, x) && !RolesBlamed(spec, refs.roles, i, x)
      {
        assert !Structural(spec, refs, x);
      }
      forall x ensures !CountBlamed(spec, x) { assert !Structural(spec, refs, x); }
    }
  }

  lemma CleanIsSound(spec: Spec, refs: Refs)
    ensures Clean(spec, refs) <==> SoundParts(spec, refs)
  {
    CleanSplits(spec, refs);
    StagesUnblamed(spec);
    CountsUnblamed(spec);
    TransitionsUnblamed(spec, refs.permissions);
    RolesUnblamed(spec, refs.roles);
  }

  lemma EndsUnblamed(spec: Spec)
    ensures (forall i: nat, x :: !EndBlamed(spec, i, x)) <==> NoDeadEnd(spec)
  {
    if forall i: nat, x :: !EndBlamed(spec, i, x) {
      forall s | s in spec.stages && !s.isTerminal
        ensures TransitionsFrom(spec, s.key) != []
      {
        var i :| 0 <= i < |spec.stages| && spec.stages[i] == s;
        assert !EndBlamed(spec, i, DeadEnd(s.key));
      }
    }
  }

  /** A spec is valid exactly when there is nothing to report. */
  lemma ValidIsUnbroken(spec: Spec, refs: Refs)
    ensures Valid(spec, refs) <==> forall x :: !Broken(spec, refs, x)
  {
    CleanIsSound(spec, refs);
    EndsUnblamed(spec);
    if forall x :: !Broken(spec, refs, x) { UnbrokenParts(spec, refs); }
  }

  lemma UnbrokenParts(spec: Spec, refs: Refs)
    requires forall x :: !Broken(spec, refs, x)
    ensures Clean(spec, refs) && (forall i: nat, x :: !EndBlamed(spec, i, x)) && !FinishBlamed(spec, NoWayToTerminal)
  {
    forall x ensures !Structural(spec, refs, x) { assert !Broken(spec, refs, x); }
    assert Clean(spec, refs);
    forall i: nat, x ensures !EndBlamed(spec, i, x) { assert !Broken(spec, refs, x); }
    assert !Broken(spec, refs, NoWayToTerminal);
  }

  lemma NothingBroken(spec: Spec, refs: Refs, issues: seq<Issue>)
    requires forall x :: x in issues <==> Broken(spec, refs, x)
    ensures issues == [] <==> Valid(spec, refs)
  {
    ValidIsUnbroken(spec, refs);
    if issues != [] { assert issues[0] in issues; }
  }

  ghost predicate Activatable(text: SpecText, refs: Refs) {
    text.Parsed? && Valid(text.spec, refs)
  }

  /** What the caller is told about a definition's text. */
  datatype Validation = Unreadable | Checked(errors: seq<Issue>, warnings: seq<Warning>) {
    predicate Ok() { Checked? && errors == [] }
  }

  ghost predicate Describes(v: Validation, text: SpecText, refs: Refs) {
    match v
    case Unreadable => text.Corrupt?
    case Checked(errors, warnings) =>
      && text.Parsed?
      && (forall x :: x in errors <==> Broken(text.spec, refs, x))
      && (forall w :: w in warnings <==> Warned(text.spec, refs, w))
  }

  method ParseAndValidate(text: SpecText, refs: Refs) returns (v: Validation)
    ensures Describes(v, text, refs) && (v.Ok() <==> Activatable(text, refs))
  {
    if text.Corrupt? { return Unreadable; }
    var errors, warnings := ValidateSpec(text.spec, refs);
    return Checked(errors, warnings);
  }

  // ---------------------------------------------------------- what validity guarantees

  lemma {:induction false} InitialsOf(stages: seq<Stage>)
    ensures forall s :: s in Initials(stages) <==> s in stages && s.isInitial
    decreases |stages|
  {
    if stages != [] {
      InitialsOf(stages[..|stages| - 1]);
      assert stages == stages[..|stages| - 1] + [stages[|stages| - 1]];
    }
  }

  function InitialAt(stages: seq<Stage>): set<nat> {
    set i: nat | 0 <= i < |stages| && stages[i].isInitial
  }

  /** As many initial stages are found as are marked. */
  lemma {:induction false} InitialsCount(stages: seq<Stage>)
    ensures |Initials(stages)| == |InitialAt(stages)|
    decreases |stages|
  {
    if stages != [] {
      var n := |stages| - 1;
      InitialsCount(stages[..n]);
      assert InitialAt(stages) == InitialAt(stages[..n]) + if stages[n].isInitial then {n} else {};
    }
  }

  lemma SingleInitial(stages: seq<Stage>)
    requires |Initials(stages)| == 1
    ensures FirstInitial(stages) == Some(Initials(stages)[0])
  {
    InitialsOf(stages);
    assert Initials(stages)[0] in Initials(stages);
    assert FirstInitial(stages).Some?;
    assert FirstInitial(stages).value in Initials(stages);
  }

  /** In a valid spec the start exists and can reach a terminal stage. */
  lemma ValidStart(spec: Spec)
    requires GraphValid(spec)
    ensures InitialStage(spec).Some? && StageByKey(spec, InitialStage(spec).value.key) == InitialStage(spec)
    ensures ReachesTerminal(spec, InitialStage(spec).value.key)
  {
    SingleInitial(spec.stages);
    KeyFinds(spec, InitialStage(spec).value);
  }

  /** In a valid spec every stage that is not terminal can be left, and every transition arrives. */
  lemma ValidNeverStrands(spec: Spec, key: string)
    requires GraphValid(spec)
    ensures StageByKey(spec, key).Some? && !Terminal(spec, key) ==> TransitionsFrom(spec, key) != []
    ensures forall t :: t in TransitionsFrom(spec, key) ==> StageByKey(spec, t.to).Some?
  {
    forall t | t in TransitionsFrom(spec, key)
      ensures StageByKey(spec, t.to).Some?
    {
      assert t in spec.transitions && WellPlaced(spec, t);
    }
  }

  /** The same, read off the spec's own stages and transitions. */
  lemma ValidOffers(spec: Spec)
    requires GraphValid(spec)
    ensures forall s :: s in spec.stages && !s.isTerminal ==> exists t :: Offers(spec, s.key, t)
    ensures forall t :: t in spec.transitions ==> exists s :: s in spec.stages && s.key == t.to
  {
    forall t | t in spec.transitions
      ensures exists s :: s in spec.stages && s.key == t.to
    {
      assert WellPlaced(spec, t) && StageByKey(spec, t.to).Some?;
    }
    forall s | s in spec.stages && !s.isTerminal
      ensures exists t :: Offers(spec, s.key, t)
    {
      var ts := TransitionsFrom(spec, s.key);
      OffersExactly(spec, s.key, ts[0]);
    }
  }

  lemma KeyFinds(spec: Spec, s: Stage)
    requires DistinctStages(spec) && s in spec.stages
    ensures StageByKey(spec, s.key) == Some(s)
  {
    var found := StageByKey(spec, s.key).value;
    var i :| 0 <= i < |spec.stages| && spec.stages[i] == s;
    var j :| 0 <= j < |spec.stages| && spec.stages[j] == found;
  }

  // ------------------------------------------------------- what it does not guarantee

  /** A set of stages that do not end, that a run can enter, and that no transition leaves. */
  ghost predicate TrapSet(spec: Spec, start: string, trap: set<string>) {
    && (exists k :: k in trap && Reaches(spec, start, k))
    && (forall k :: k in trap ==> !Terminal(spec, k))
    && (forall a, b :: a in trap && Hop(spec, a, b) ==> b in trap)
  }

  /** What the validator's comment asks: every stage reachable from the start can still finish. */
  ghost predicate AlwaysFinishes(spec: Spec, start: string) {
    forall k :: Reaches(spec, start, k) ==> ReachesTerminal(spec, k)
  }

  lemma ReachesTargets(spec: Spec, a: string, b: string)
    requires Reaches(spec, a, b)
    ensures b == a || b in Targets(spec)
  {
    var path :| IsPath(spec, path) && path[0] == a && path[|path| - 1] == b;
    if |path| > 1 { assert Hop(spec, path[|path| - 2], path[|path| - 1]); }
  }

  lemma TrappedNeverFinishes(spec: Spec, start: string, trap: set<string>, k: string)
    requires TrapSet(spec, start, trap) && k in trap
    ensures !ReachesTerminal(spec, k)
  {
    forall t | Reaches(spec, k, t)
      ensures t in trap
    {
      var path :| IsPath(spec, path) && path[0] == k && path[|path| - 1] == t;
      ClosedHoldsReachable(spec, trap, path);
    }
  }

  lemma StuckIsTrapped(spec: Spec, start: string, k: string)
    requires Reaches(spec, start, k) && !ReachesTerminal(spec, k)
    ensures exists trap :: TrapSet(spec, start, trap)
  {
    var trap := set x | x in Targets(spec) + {k} && Reaches(spec, k, x);
    ReachesSelf(spec, k);
    forall a, b | a in trap && Hop(spec, a, b)
      ensures b in trap
    {
      ReachesHop(spec, k, a, b);
      ReachesTargets(spec, k, b);
    }
    assert TrapSet(spec, start, trap);
  }

  /** A spec meets the validator's comment exactly when it holds no trap. */
  lemma FinishesExactly(spec: Spec, start: string)
    ensures AlwaysFinishes(spec, start) <==> !exists trap :: TrapSet(spec, start, trap)
  {
    if trap :| TrapSet(spec, start, trap) {
      var k :| k in trap && Reaches(spec, start, k);
      TrappedNeverFinishes(spec, start, trap, k);
    }
    if k :| Reaches(spec, start, k) && !ReachesTerminal(spec, k) {
      StuckIsTrapped(spec, start, k);
    }
  }

  // --------------------------------------------------------------- plain specs

  /** Transition `t` joins stages `a` and `b` by name. */
  predicate Joins(spec: Spec, t: nat, a: nat, b: nat) {
    && t < |spec.transitions| && a < |spec.stages| && b < |spec.stages|
    && spec.transitions[t].from == spec.stages[a].key && spec.transitions[t].to == spec.stages[b].key
    && !spec.stages[a].isTerminal && spec.stages[b].key != "*"
  }

  /** A spec of named stages and the joins between them, without permissions or roles; the first stage starts. */
  ghost predicate Plain(spec: Spec) {
    && spec.stages != [] && DistinctStages(spec) && DistinctTransitions(spec)
    && (forall i :: 0 <= i < |spec.stages| ==>
          var s := spec.stages[i];
          && (s.isInitial <==> i == 0) && s.responsibleRoles == [] && s.escalation.None?
          && (s.isTerminal || exists t, b :: Joins(spec, t, i, b)))
    && (forall t :: 0 <= t < |spec.transitions| ==>
          spec.transitions[t].permission.None? && exists a, b :: Joins(spec, t, a, b))
  }

  lemma KeyAt(spec: Spec, i: nat)
    requires DistinctStages(spec) && i < |spec.stages|
    ensures StageByKey(spec, spec.stages[i].key) == Some(spec.stages[i])
  {
    KeyFinds(spec, spec.stages[i]);
  }

  lemma JoinHops(spec: Spec, t: nat, a: nat, b: nat)
    requires DistinctStages(spec) && Joins(spec, t, a, b)
    ensures TransitionsFrom(spec, spec.stages[a].key) != [] && Hop(spec, spec.stages[a].key, spec.stages[b].key)
    ensures WellPlaced(spec, spec.transitions[t])
  {
    KeyAt(spec, a);
    KeyAt(spec, b);
    assert spec.transitions[t] in TransitionsFrom(spec, spec.stages[a].key);
  }

  lemma PlainPlaces(spec: Spec, t: Transition)
    requires Plain(spec) && t in spec.transitions
    ensures WellPlaced(spec, t) && t.permission.None?
  {
    var i :| 0 <= i < |spec.transitions| && spec.transitions[i] == t;
    var a, b :| Joins(spec, i, a, b);
    JoinHops(spec, i, a, b);
  }

  lemma PlainLeaves(spec: Spec, s: Stage)
    requires Plain(spec) && s in spec.stages
    ensures s.isTerminal || TransitionsFrom(spec, s.key) != []
    ensures s.responsibleRoles == [] && s.escalation.None?
  {
    var i :| 0 <= i < |spec.stages| && spec.stages[i] == s;
    if !s.isTerminal {
      var t, b :| Joins(spec, t, i, b);
      JoinHops(spec, t, i, b);
    }
  }

  /** A plain spec whose start can finish is valid, whatever the catalog. */
  lemma PlainIsValid(spec: Spec, refs: Refs)
    requires Plain(spec) && ReachesTerminal(spec, spec.stages[0].key)
    ensures Valid(spec, refs) && InitialStage(spec) == Some(spec.stages[0])
  {
    forall t | t in spec.transitions ensures WellPlaced(spec, t) && t.permission.None? { PlainPlaces(spec, t); }
    forall s | s in spec.stages
      ensures s.isTerminal || TransitionsFrom(spec, s.key) != []
      ensures s.responsibleRoles == [] && s.escalation.None?
    {
      PlainLeaves(spec, s);
    }
    OnlyInitial(spec.stages, 0);
    SingleInitial(spec.stages);
    var end :| Reaches(spec, spec.stages[0].key, end) && Terminal(spec, end);
    UncataloguedIsValid(spec, refs, StageByKey(spec, end).value);
  }

  /** Without permissions, roles or escalations the catalog does not matter. */
  lemma UncataloguedIsValid(spec: Spec, refs: Refs, end: Stage)
    requires spec.stages != [] && DistinctStages(spec) && DistinctTransitions(spec) && Initials(spec.stages) == [spec.stages[0]]
    requires end in spec.stages && end.isTerminal && ReachesTerminal(spec, spec.stages[0].key)
    requires forall t :: t in spec.transitions ==> WellPlaced(spec, t) && t.permission.None?
    requires forall s :: s in spec.stages ==> s.isTerminal || TransitionsFrom(spec, s.key) != []
    requires forall s :: s in spec.stages ==> s.responsibleRoles == [] && s.escalation.None?
    ensures Valid(spec, refs)
  {
  }

  lemma {:induction false} OnlyInitial(stages: seq<Stage>, i: nat)
    requires i < |stages| && forall j :: 0 <= j < |stages| ==> (stages[j].isInitial <==> j == i)
    ensures Initials(stages) == [stages[i]]
    decreases |stages|
  {
    var n := |stages| - 1;
    if i < n {
      OnlyInitial(stages[..n], i);
    } else {
      NoInitials(stages[..n]);
    }
  }

  lemma {:induction false} NoInitials(stages: seq<Stage>)
    requires forall j :: 0 <= j < |stages| ==> !stages[j].isInitial
    ensures Initials(stages) == []
    decreases |stages|
  {
    if stages != [] { NoInitials(stages[..|stages| - 1]); }
  }

  function Named(key: string, initial: bool, terminal: bool): Stage {
    Stage(key, initial, terminal, None, [], [], [], 0, None)
  }

  /** A start, an end, and a stage in between that only leads to itself. */
  const TRAP_SPEC: Spec := Spec(
    [Named("a", true, false), Named("b", false, false), Named("c", false, true)],
    [Transition("x", "a", "b", None), Transition("y", "a", "c", None), Transition("z", "b", "b", None)])

  lemma TrapJoins()
    ensures |TRAP_SPEC.stages| == 3 && |TRAP_SPEC.transitions| == 3
    ensures Joins(TRAP_SPEC, 0, 0, 1) && Joins(TRAP_SPEC, 1, 0, 2) && Joins(TRAP_SPEC, 2, 1, 1)
    ensures TRAP_SPEC.stages[2].isTerminal && TRAP_SPEC.transitions[0].from != TRAP_SPEC.stages[1].key
    ensures TRAP_SPEC.transitions[1].from != TRAP_SPEC.stages[1].key
  {
  }

  lemma TrapIsPlain()
    ensures Plain(TRAP_SPEC)
  {
    TrapJoins();
  }

  /** Only the third transition leaves the middle stage, back to itself. */
  lemma TrapHolds(y: string)
    requires Hop(TRAP_SPEC, TRAP_SPEC.stages[1].key, y)
    ensures y == TRAP_SPEC.stages[1].key
  {
    TrapJoins();
    var b := TRAP_SPEC.stages[1].key;
    var t :| t in TransitionsFrom(TRAP_SPEC, b) && t.to == y;
    assert t in TRAP_SPEC.transitions && (t.from == b || t.from == "*");
  }

  lemma PlainReaches(spec: Spec, t: nat, b: nat)
    requires Plain(spec) && Joins(spec, t, 0, b)
    ensures Reaches(spec, spec.stages[0].key, spec.stages[b].key)
    ensures spec.stages[b].isTerminal <==> Terminal(spec, spec.stages[b].key)
  {
    JoinHops(spec, t, 0, b);
    ReachesSelf(spec, spec.stages[0].key);
    ReachesHop(spec, spec.stages[0].key, spec.stages[0].key, spec.stages[b].key);
    KeyAt(spec, b);
  }

  /** A valid spec with a trap: the validator accepts what its comment rules out. */
  lemma ValidSpecWithTrap() returns (spec: Spec, trap: set<string>)
    ensures Valid(spec, Refs({}, {})) && InitialStage(spec).Some?
    ensures TrapSet(spec, InitialStage(spec).value.key, trap) && !AlwaysFinishes(spec, InitialStage(spec).value.key)
  {
    TrapJoins();
    TrapIsPlain();
    PlainReaches(TRAP_SPEC, 0, 1);
    PlainReaches(TRAP_SPEC, 1, 2);
    trap := LoneStageTraps(TRAP_SPEC);
    PlainIsValid(TRAP_SPEC, Refs({}, {}));
    spec := TRAP_SPEC;
    FinishesExactly(spec, spec.stages[0].key);
  }

  lemma LoneStageTraps(spec: Spec) returns (trap: set<string>)
    requires spec == TRAP_SPEC && |spec.stages| == 3
    requires Reaches(spec, spec.stages[0].key, spec.stages[1].key) && !Terminal(spec, spec.stages[1].key)
    ensures TrapSet(spec, spec.stages[0].key, trap)
  {
    trap := {spec.stages[1].key};
    forall a, b | a in trap && Hop(spec, a, b) ensures b in trap { TrapHolds(b); }
  }
}
