/** The inverse rollback synthesizer: inverted actions, reversed edges, full and partial plans. */
module Rollback {
  import opened Common
  import opened PlanGraph
  import opened Kahn

  datatype Reversibility = Deterministic | SnapshotRestore | NonReversible

  type Registry = map<string, Reversibility>

  const INVERSIONS: map<string, string> := map[
    "delete" := "restore", "add" := "remove", "disable" := "enable", "stop" := "start",
    "unmount" := "mount", "deprovision" := "provision", "undeploy" := "deploy",
    "revert" := "apply", "remove" := "add"]

  const SNAPSHOT_ACTIONS: set<string> := {
    "create", "migrate", "transform", "update", "replace", "enable", "insert", "provision", "deploy", "apply"}

  const NON_REVERSIBLE_ACTIONS: set<string> := {"publish", "destroy", "commit"}

  const NOOP := "sys.noop"

  /**
   * Merge the three tables and the overrides: later tables win, except that a snapshot verb
   * never displaces another.
   */
  method MergeTables(inversions: set<string>, snapshots: set<string>, irreversible: set<string>, extra: Registry)
    returns (registry: Registry)
    ensures registry.Keys == inversions + snapshots + irreversible + extra.Keys
    ensures forall a | a in registry :: registry[a] ==
              if a in extra then extra[a]
              else if a in irreversible then NonReversible
              else if a in inversions then Deterministic
              else SnapshotRestore
  {
    registry := map a | a in inversions :: Deterministic;
    var left := snapshots;
    while left != {}
      invariant left <= snapshots
      invariant registry.Keys == inversions + (snapshots - left)
      invariant forall a | a in registry :: registry[a] == if a in inversions then Deterministic else SnapshotRestore
    {
      var a :| a in left;
      if a !in registry {
        registry := registry[a := SnapshotRestore];
      }
      left := left - {a};
    }
    registry := registry + (map a | a in irreversible :: NonReversible);
    registry := registry + extra;
  }

  method ActionInversionRegistry(extra: Registry) returns (registry: Registry)
    ensures registry.Keys == INVERSIONS.Keys + SNAPSHOT_ACTIONS + NON_REVERSIBLE_ACTIONS + extra.Keys
    ensures forall a | a in registry :: registry[a] == if a in extra then extra[a] else DefaultClass(a)
    ensures extra == map[] ==> NoSilentNoops(registry)
  {
    registry := MergeTables(INVERSIONS.Keys, SNAPSHOT_ACTIONS, NON_REVERSIBLE_ACTIONS, extra);
    TablesAreDefault(INVERSIONS.Keys, NON_REVERSIBLE_ACTIONS, registry, extra);
  }

  lemma TablesAreDefault(inversions: set<string>, irreversible: set<string>, registry: Registry, extra: Registry)
    requires inversions == INVERSIONS.Keys && irreversible == NON_REVERSIBLE_ACTIONS
    requires forall a | a in registry :: registry[a] ==
               if a in extra then extra[a]
               else if a in irreversible then NonReversible
               else if a in inversions then Deterministic
               else SnapshotRestore
    ensures forall a | a in registry :: registry[a] == if a in extra then extra[a] else DefaultClass(a)
    ensures extra == map[] ==> NoSilentNoops(registry)
  {
  }

  /** How the default tables class a verb: irreversible ones first, then those with an inverse, then the rest. */
  function DefaultClass(a: string): Reversibility {
    if a in NON_REVERSIBLE_ACTIONS then NonReversible
    else if a in INVERSIONS then Deterministic
    else SnapshotRestore
  }

  /** Every verb the registry calls deterministic has an inverse verb. */
  ghost predicate NoSilentNoops(registry: Registry) {
    forall a | a in registry && registry[a].Deterministic? :: a in INVERSIONS
  }

  function RollbackId(id: Id): Id {
    Id("rollback:" + id.name)
  }

  function ForwardId(id: Id): Id {
    Id(if |id.name| >= 9 then id.name[9..] else "")
  }

  lemma RollbackIdRoundTrip(id: Id)
    ensures ForwardId(RollbackId(id)) == id
  {
    assert ("rollback:" + id.name)[9..] == id.name;
  }

  datatype Inversion = Inversion(task: Task, skipped: bool)

  /** The rollback twin of a task, and whether it is recorded as a skipped non-reversible step. */
  function InvertTask(task: Task, registry: Registry): Inversion {
    var action :=
      if task.action !in registry || registry[task.action].NonReversible? then NOOP
      else if registry[task.action].Deterministic? then
        (if task.action in INVERSIONS then INVERSIONS[task.action] else NOOP)
      else "restore_snapshot";
    Inversion(
      Task(RollbackId(task.id), "rollback of " + task.id.name, action, task.target, Low),
      task.action !in registry || registry[task.action].NonReversible?)
  }

  /** A step silently becomes a no-op exactly when the registry calls an unmapped verb deterministic. */
  lemma SilentNoopIff(task: Task, registry: Registry)
    ensures var inv := InvertTask(task, registry);
            && (inv.skipped ==> inv.task.action == NOOP)
            && (inv.task.action == NOOP && !inv.skipped <==>
                task.action in registry && registry[task.action].Deterministic? && task.action !in INVERSIONS)
  {
    if task.action in INVERSIONS {
      var v := INVERSIONS[task.action];
      assert v in {"restore", "remove", "enable", "start", "mount", "provision", "deploy", "apply", "add"};
      assert forall w | w in {"restore", "remove", "enable", "start", "mount", "provision", "deploy", "apply", "add"} ::
          |w| < 8 || w == "provision";
      assert |NOOP| == 8 && "provision"[0] != NOOP[0];
    }
    assert "restore_snapshot"[0] != NOOP[0];
  }

  function TaskOf(tasks: seq<Task>, id: Id): (t: Task)
    requires id in Ids(tasks)
    ensures t.id == id && t in tasks
  {
    TaskIndexFinds(tasks, id);
    tasks[TaskIndex(tasks, id)]
  }

  ghost predicate Known(tasks: seq<Task>, ids: seq<Id>) {
    forall v | v in ids :: v in Ids(tasks)
  }

  function Reversed<T>(s: seq<T>): (r: seq<T>)
    ensures |r| == |s| && forall i | 0 <= i < |s| :: r[i] == s[|s| - 1 - i]
  {
    seq(|s|, i requires 0 <= i < |s| => s[|s| - 1 - i])
  }

  function InvertedTasks(tasks: seq<Task>, ids: seq<Id>, registry: Registry): (r: seq<Task>)
    requires Known(tasks, ids)
    ensures |r| == |ids|
    ensures forall i | 0 <= i < |ids| :: r[i] == InvertTask(TaskOf(tasks, ids[i]), registry).task
  {
    seq(|ids|, i requires 0 <= i < |ids| => InvertTask(TaskOf(tasks, ids[i]), registry).task)
  }

  /** One edge reversed, if it is hard and, given `within`, joins two of its tasks. */
  function ReversedEdge(d: Dependency, within: Option<set<Id>>): seq<Dependency> {
    if d.kind.Hard? && (within.None? || (d.toTask in within.value && d.fromTask in within.value))
    then [Dependency(RollbackId(d.toTask), RollbackId(d.fromTask), Hard,
                     if within.None? then "reversed for rollback" else "reversed for partial rollback")]
    else []
  }

  function ReversedEdges(deps: seq<Dependency>, within: Option<set<Id>>): seq<Dependency> {
    if deps == [] then []
    else ReversedEdges(deps[..|deps| - 1], within) + ReversedEdge(deps[|deps| - 1], within)
  }

  function FullRollback(p: PlanVersion, registry: Registry, order: seq<Id>): PlanVersion
    requires Known(p.tasks, Reversed(order))
  {
    PlanVersion("rollback-" + p.id, p.goalId, 1, Some(p.id),
                InvertedTasks(p.tasks, Reversed(order), registry), ReversedEdges(p.dependencies, None))
  }

  /** The part of the order before the failed step; all of it when the step does not occur. */
  function Completed(order: seq<Id>, failed: Id): seq<Id> {
    if order == [] || order[0] == failed then [] else [order[0]] + Completed(order[1..], failed)
  }

  ghost function PartialRollback(p: PlanVersion, registry: Registry, order: seq<Id>, failed: Id): PlanVersion
    requires Known(p.tasks, Reversed(Completed(order, failed)))
  {
    var done := Completed(order, failed);
    PlanVersion("rollback-partial-" + p.id, p.goalId, 1, Some(p.id),
                InvertedTasks(p.tasks, Reversed(done), registry),
                ReversedEdges(p.dependencies, Some(Elements(done))))
  }

  // -------------------------------------------------------------- edges and reachability

  ghost predicate Within(within: Option<set<Id>>, x: Id) {
    within.None? || x in within.value
  }

  lemma EdgeJoin(a: seq<Dependency>, b: seq<Dependency>, x: Id, y: Id)
    ensures Edge(a + b, x, y) <==> Edge(a, x, y) || Edge(b, x, y)
  {
  }

  lemma EdgeOne(d: Dependency, x: Id, y: Id)
    ensures Edge([d], x, y) <==> d.kind.Hard? && d.fromTask == x && d.toTask == y
  {
    assert d in [d];
  }

  lemma RollbackIdInjective(x: Id, y: Id)
    ensures RollbackId(x) == RollbackId(y) <==> x == y
  {
    RollbackIdRoundTrip(x);
    RollbackIdRoundTrip(y);
  }

  lemma EdgeReverses(d: Dependency, within: Option<set<Id>>, x: Id, y: Id)
    ensures Edge(ReversedEdge(d, within), RollbackId(y), RollbackId(x)) <==>
            Edge([d], x, y) && Within(within, x) && Within(within, y)
  {
    RollbackIdInjective(x, d.fromTask);
    RollbackIdInjective(y, d.toTask);
    EdgeOne(d, x, y);
    if ReversedEdge(d, within) != [] {
      EdgeOne(ReversedEdge(d, within)[0], RollbackId(y), RollbackId(x));
    }
  }

  /** x -> y becomes rollback:y -> rollback:x, and there are no other edges. */
  lemma {:induction false} EdgesReverse(deps: seq<Dependency>, within: Option<set<Id>>, x: Id, y: Id)
    ensures Edge(ReversedEdges(deps, within), RollbackId(y), RollbackId(x)) <==>
            Edge(deps, x, y) && Within(within, x) && Within(within, y)
  {
    if deps != [] {
      var d, rest := deps[|deps| - 1], deps[..|deps| - 1];
      EdgesReverse(rest, within, x, y);
      SplitLast(deps);
      EdgeJoin(rest, [d], x, y);
      EdgeReverses(d, within, x, y);
      EdgeJoin(ReversedEdges(rest, within), ReversedEdge(d, within), RollbackId(y), RollbackId(x));
    }
  }

  lemma {:induction false} EdgesAreRenamed(deps: seq<Dependency>, within: Option<set<Id>>, a: Id, b: Id)
    requires Edge(ReversedEdges(deps, within), a, b)
    ensures a == RollbackId(ForwardId(a)) && b == RollbackId(ForwardId(b))
    ensures Edge(deps, ForwardId(b), ForwardId(a))
  {
    var d, rest := deps[|deps| - 1], deps[..|deps| - 1];
    SplitLast(deps);
    EdgeJoin(rest, [d], ForwardId(b), ForwardId(a));
    EdgeJoin(ReversedEdges(rest, within), ReversedEdge(d, within), a, b);
    if Edge(ReversedEdges(rest, within), a, b) {
      EdgesAreRenamed(rest, within, a, b);
    } else {
      EdgeIsRenamed(d, within, a, b);
    }
  }

  lemma EdgeIsRenamed(d: Dependency, within: Option<set<Id>>, a: Id, b: Id)
    requires Edge(ReversedEdge(d, within), a, b)
    ensures a == RollbackId(ForwardId(a)) && b == RollbackId(ForwardId(b))
    ensures Edge([d], ForwardId(b), ForwardId(a))
  {
    EdgeOne(ReversedEdge(d, within)[0], a, b);
    RollbackIdRoundTrip(d.fromTask);
    RollbackIdRoundTrip(d.toTask);
    EdgeOne(d, d.fromTask, d.toTask);
  }

  lemma PathReverses(deps: seq<Dependency>, path: seq<Id>) returns (back: seq<Id>)
    requires IsPath(deps, path)
    ensures IsPath(ReversedEdges(deps, None), back)
    ensures back[0] == RollbackId(path[|path| - 1]) && back[|back| - 1] == RollbackId(path[0])
  {
    back := MirrorIds(path);
    forall i, j | 0 <= i && j == i + 1 < |back|
      ensures Edge(ReversedEdges(deps, None), back[i], back[j])
    {
      StepReverses(deps, path, back, i);
    }
  }

  ghost function MirrorIds(path: seq<Id>): (back: seq<Id>)
    ensures Mirrors(path, back)
  {
    seq(|path|, i requires 0 <= i < |path| => RollbackId(path[|path| - 1 - i]))
  }

  lemma StepReverses(deps: seq<Dependency>, path: seq<Id>, back: seq<Id>, i: nat)
    requires IsPath(deps, path) && Mirrors(path, back) && i + 1 < |back|
    ensures Edge(ReversedEdges(deps, None), back[i], back[i + 1])
  {
    var k := |path| - 2 - i;
    assert Edge(deps, path[k], path[k + 1]);
    EdgesReverse(deps, None, path[k], path[k + 1]);
  }

  lemma StepUnreverses(deps: seq<Dependency>, back: seq<Id>, i: nat)
    requires IsPath(ReversedEdges(deps, None), back) && i + 1 < |back|
    ensures Edge(deps, ForwardId(back[i + 1]), ForwardId(back[i]))
    ensures back[i] == RollbackId(ForwardId(back[i])) && back[i + 1] == RollbackId(ForwardId(back[i + 1]))
  {
    assert Edge(ReversedEdges(deps, None), back[i], back[i + 1]);
    EdgesAreRenamed(deps, None, back[i], back[i + 1]);
  }

  lemma PathUnreverses(deps: seq<Dependency>, back: seq<Id>) returns (path: seq<Id>)
    requires IsPath(ReversedEdges(deps, None), back)
    ensures IsPath(deps, path)
    ensures back[0] == RollbackId(path[|path| - 1]) && back[|back| - 1] == RollbackId(path[0])
  {
    path := UnmirrorIds(back);
    forall k, l | 0 <= k && l == k + 1 < |path|
      ensures Edge(deps, path[k], path[l])
    {
      StepUnmirrors(deps, back, path, k);
    }
    EndsUnreverse(deps, back);
  }

  ghost predicate Unmirrors(back: seq<Id>, path: seq<Id>) {
    |path| == |back| && forall i | 0 <= i < |path| :: path[i] == ForwardId(back[|back| - 1 - i])
  }

  ghost function UnmirrorIds(back: seq<Id>): (path: seq<Id>)
    ensures Unmirrors(back, path)
  {
    seq(|back|, i requires 0 <= i < |back| => ForwardId(back[|back| - 1 - i]))
  }

  lemma StepUnmirrors(deps: seq<Dependency>, back: seq<Id>, path: seq<Id>, k: nat)
    requires IsPath(ReversedEdges(deps, None), back) && Unmirrors(back, path) && k + 1 < |path|
    ensures Edge(deps, path[k], path[k + 1])
  {
    StepUnreverses(deps, back, |back| - 2 - k);
  }

  lemma EndsUnreverse(deps: seq<Dependency>, back: seq<Id>)
    requires IsPath(ReversedEdges(deps, None), back)
    ensures back[0] == RollbackId(ForwardId(back[0])) && back[|back| - 1] == RollbackId(ForwardId(back[|back| - 1]))
  {
    StepUnreverses(deps, back, 0);
    StepUnreverses(deps, back, |back| - 2);
  }

  /** x reaches y in the plan exactly when rollback:y reaches rollback:x in its rollback. */
  lemma ReachabilityReverses(deps: seq<Dependency>, x: Id, y: Id)
    ensures Reaches(deps, x, y) <==> Reaches(ReversedEdges(deps, None), RollbackId(y), RollbackId(x))
  {
    if Reaches(deps, x, y) {
      var path :| IsPath(deps, path) && path[0] == x && path[|path| - 1] == y;
      var back := PathReverses(deps, path);
    }
    if Reaches(ReversedEdges(deps, None), RollbackId(y), RollbackId(x)) {
      var back :| IsPath(ReversedEdges(deps, None), back) && back[0] == RollbackId(y)
          && back[|back| - 1] == RollbackId(x);
      var path := PathUnreverses(deps, back);
      RollbackIdRoundTrip(x);
      RollbackIdRoundTrip(y);
      RollbackIdRoundTrip(path[0]);
      RollbackIdRoundTrip(path[|path| - 1]);
    }
  }

  /** Rolling back the rollback gives the original hard edges, renamed twice and nothing else. */
  lemma DoubleReversal(deps: seq<Dependency>, a: Id, b: Id)
    ensures var twice := ReversedEdges(ReversedEdges(deps, None), None);
            Edge(twice, a, b) <==>
            && a == RollbackId(RollbackId(ForwardId(ForwardId(a))))
            && b == RollbackId(RollbackId(ForwardId(ForwardId(b))))
            && Edge(deps, ForwardId(ForwardId(a)), ForwardId(ForwardId(b)))
  {
    var once := ReversedEdges(deps, None);
    var x, y := ForwardId(ForwardId(a)), ForwardId(ForwardId(b));
    if Edge(ReversedEdges(once, None), a, b) {
      EdgesAreRenamed(once, None, a, b);
      EdgesAreRenamed(deps, None, ForwardId(b), ForwardId(a));
    }
    EdgesReverse(deps, None, x, y);
    EdgesReverse(once, None, RollbackId(y), RollbackId(x));
  }

  // ------------------------------------------------------------- the rollback plans are DAGs

  ghost function TaskIds(tasks: seq<Task>): (r: seq<Id>)
    ensures |r| == |tasks| && forall i | 0 <= i < |tasks| :: r[i] == tasks[i].id
    ensures Elements(r) == Ids(tasks)
  {
    var r := seq(|tasks|, i requires 0 <= i < |tasks| => tasks[i].id);
    assert forall i | 0 <= i < |tasks| :: tasks[i] in tasks;
    assert forall v | v in Ids(tasks) :: exists i :: 0 <= i < |tasks| && tasks[i].id == v && r[i] == v;
    r
  }

  /** `within` keeps exactly the edges between the tasks of `done`. */
  ghost predicate Keeps(p: PlanVersion, within: Option<set<Id>>, done: seq<Id>) {
    match within
    case None => Elements(done) == Ids(p.tasks)
    case Some(kept) => kept == Elements(done)
  }

  ghost predicate Mirrors(done: seq<Id>, listed: seq<Id>) {
    |listed| == |done| && forall i | 0 <= i < |done| :: listed[i] == RollbackId(done[|done| - 1 - i])
  }

  /** A reversed edge into the mirror of done[m] comes from the mirror of a later task. */
  lemma ReversedEdgeSource(p: PlanVersion, within: Option<set<Id>>, done: seq<Id>, m: nat, u: Id) returns (j: nat)
    requires Resolvable(p) && Keeps(p, within, done)
    requires Distinct(done) && PredecessorsFirst(p.dependencies, done)
    requires m < |done| && Edge(ReversedEdges(p.dependencies, within), u, RollbackId(done[m]))
    ensures m < j < |done| && u == RollbackId(done[j])
  {
    var x, y := done[m], ForwardId(u);
    EdgesAreRenamed(p.dependencies, within, u, RollbackId(x));
    RollbackIdRoundTrip(x);
    EdgesReverse(p.dependencies, within, x, y);
    assert y in Elements(done);
    j :| 0 <= j < |done| && done[j] == y;
    var k := ListedBefore(p.dependencies, done, x, j);
  }

  /** Reversing a list that respects the edges gives a list that respects the reversed edges. */
  lemma ReversedListRespects(p: PlanVersion, within: Option<set<Id>>, done: seq<Id>, listed: seq<Id>)
    requires Resolvable(p) && Keeps(p, within, done) && Mirrors(done, listed)
    requires Distinct(done) && PredecessorsFirst(p.dependencies, done)
    ensures PredecessorsFirst(ReversedEdges(p.dependencies, within), listed)
  {
    var n := |done|;
    forall i, u | 0 <= i < n && Edge(ReversedEdges(p.dependencies, within), u, listed[i])
      ensures u in listed[..i]
    {
      var j := ReversedEdgeSource(p, within, done, n - 1 - i, u);
      ListedEarlier(done, listed, i, j);
    }
  }

  lemma ListedEarlier(done: seq<Id>, listed: seq<Id>, i: nat, j: nat)
    requires Mirrors(done, listed) && i < |done| && |done| - 1 - i < j < |done|
    ensures RollbackId(done[j]) in listed[..i]
  {
    var k := |done| - 1 - j;
    assert listed[k] == RollbackId(done[j]);
    assert listed[..i][k] == listed[k];
  }

  /** A plan built from mirrored tasks and reversed edges is a DAG whose task list is a finished Kahn run. */
  lemma MirrorIsDag(p: PlanVersion, within: Option<set<Id>>, done: seq<Id>, r: PlanVersion)
    requires Resolvable(p) && Keeps(p, within, done)
    requires Distinct(done) && PredecessorsFirst(p.dependencies, done)
    requires r.dependencies == ReversedEdges(p.dependencies, within)
    requires Mirrors(done, TaskIds(r.tasks))
    ensures DistinctIds(r.tasks) && Resolvable(r) && Acyclic(r.dependencies)
    ensures KahnRun(r, TaskIds(r.tasks))
  {
    var listed := TaskIds(r.tasks);
    ReversedListRespects(p, within, done, listed);
    MirrorDistinct(done, listed);
    assert forall i, j | 0 <= i < j < |r.tasks| :: listed[i] != listed[j];
    MirrorResolvable(p, within, done, r);
    assert forall v | v in Ids(r.tasks) :: v in Elements(listed);
    RunCompleteIffAcyclic(r, listed);
  }

  lemma MirrorDistinct(done: seq<Id>, listed: seq<Id>)
    requires Distinct(done) && Mirrors(done, listed)
    ensures Distinct(listed)
  {
    forall i, j | 0 <= i < j < |listed| ensures listed[i] != listed[j] {
      RollbackIdRoundTrip(done[|done| - 1 - i]);
      RollbackIdRoundTrip(done[|done| - 1 - j]);
    }
  }

  lemma MirrorResolvable(p: PlanVersion, within: Option<set<Id>>, done: seq<Id>, r: PlanVersion)
    requires Resolvable(p) && Keeps(p, within, done)
    requires r.dependencies == ReversedEdges(p.dependencies, within)
    requires Mirrors(done, TaskIds(r.tasks))
    ensures Resolvable(r)
  {
    forall d | d in r.dependencies && d.kind.Hard?
      ensures d.fromTask in Ids(r.tasks) && d.toTask in Ids(r.tasks)
    {
      assert Edge(r.dependencies, d.fromTask, d.toTask);
      EdgesAreRenamed(p.dependencies, within, d.fromTask, d.toTask);
      EdgesReverse(p.dependencies, within, ForwardId(d.toTask), ForwardId(d.fromTask));
      MirrorLists(done, TaskIds(r.tasks), ForwardId(d.fromTask));
      MirrorLists(done, TaskIds(r.tasks), ForwardId(d.toTask));
    }
  }

  lemma MirrorLists(done: seq<Id>, listed: seq<Id>, v: Id)
    requires Mirrors(done, listed) && v in Elements(done)
    ensures RollbackId(v) in Elements(listed)
  {
    var i :| 0 <= i < |done| && done[i] == v;
    assert listed[|done| - 1 - i] == RollbackId(v);
  }

  /** The precondition under which both builders return a plan instead of raising. */
  ghost predicate IsDag(p: PlanVersion) {
    Resolvable(p) && DistinctIds(p.tasks) && Acyclic(p.dependencies)
  }

  lemma OrderIsKnown(p: PlanVersion, order: seq<Id>, failed: Id)
    requires IsDag(p) && IsTopologicalOrder(p, order)
    ensures Elements(order) == Ids(p.tasks)
    ensures Completed(order, failed) <= order
    ensures Known(p.tasks, Reversed(order)) && Known(p.tasks, Reversed(Completed(order, failed)))
  {
    RunCompleteIffAcyclic(p, order);
    CompletedIsPrefix(order, failed);
    assert forall v | v in Reversed(order) :: v in order;
    var done := Completed(order, failed);
    assert forall v | v in Reversed(done) :: v in done;
    assert forall v | v in done :: v in order;
  }

  lemma {:induction false} CompletedIsPrefix(order: seq<Id>, failed: Id)
    ensures Completed(order, failed) <= order
    ensures failed !in Completed(order, failed)
    ensures |Completed(order, failed)| < |order| ==> order[|Completed(order, failed)|] == failed
  {
    if order != [] && order[0] != failed {
      CompletedIsPrefix(order[1..], failed);
    }
  }

  /** Every full rollback is itself a valid DAG, and its own task list respects its edges. */
  lemma FullRollbackIsDag(p: PlanVersion, registry: Registry, order: seq<Id>)
    requires IsDag(p) && IsTopologicalOrder(p, order)
    ensures Known(p.tasks, Reversed(order))
    ensures var r := FullRollback(p, registry, order);
            IsDag(r) && KahnRun(r, TaskIds(r.tasks)) && |r.tasks| == |p.tasks|
  {
    OrderIsKnown(p, order, Id(""));
    InvertedMirror(p.tasks, order, registry);
    MirrorIsDag(p, None, order, FullRollback(p, registry, order));
    CompleteRunMeansDag(p, order);
  }

  /** The steps a partial rollback covers: predecessor-closed, without the failed step or any descendant of it. */
  lemma CompletedExcludesFailed(p: PlanVersion, order: seq<Id>, failed: Id)
    requires IsTopologicalOrder(p, order)
    ensures var done := Completed(order, failed);
            && (forall u, v | v in done && Edge(p.dependencies, u, v) :: u in done)
            && (forall v | v in done :: v != failed && !Reaches(p.dependencies, failed, v))
            && (failed !in order ==> done == order)
            && PredecessorsFirst(p.dependencies, done) && Distinct(done)
  {
    var done := Completed(order, failed);
    CompletedIsPrefix(order, failed);
    CompletedClosed(p.dependencies, order, done);
    forall v | v in done ensures !Reaches(p.dependencies, failed, v) {
      var j :| 0 <= j < |done| && done[j] == v;
      if Reaches(p.dependencies, failed, done[j]) {
        ReachesGoesForward(p.dependencies, done, failed, j);
      }
    }
  }

  /** The partial rollback is a suffix of the full rollback's list and a valid DAG in its own list order. */
  lemma PartialRollbackIsDag(p: PlanVersion, registry: Registry, order: seq<Id>, failed: Id)
    requires IsDag(p) && IsTopologicalOrder(p, order)
    ensures Known(p.tasks, Reversed(order)) && Known(p.tasks, Reversed(Completed(order, failed)))
    ensures var full, part := FullRollback(p, registry, order), PartialRollback(p, registry, order, failed);
            && |part.tasks| <= |full.tasks| && full.tasks[|full.tasks| - |part.tasks|..] == part.tasks
            && IsDag(part) && KahnRun(part, TaskIds(part.tasks))
  {
    OrderIsKnown(p, order, failed);
    PartialIsSuffix(p, registry, order, Completed(order, failed));
    PartialIsDag(p, registry, order, failed);
  }

  lemma PartialIsDag(p: PlanVersion, registry: Registry, order: seq<Id>, failed: Id)
    requires IsDag(p) && IsTopologicalOrder(p, order) && Known(p.tasks, Reversed(Completed(order, failed)))
    ensures var part := PartialRollback(p, registry, order, failed); IsDag(part) && KahnRun(part, TaskIds(part.tasks))
  {
    var done := Completed(order, failed);
    CompletedExcludesFailed(p, order, failed);
    InvertedMirror(p.tasks, done, registry);
    MirrorIsDag(p, Some(Elements(done)), done, PartialRollback(p, registry, order, failed));
  }

  lemma InvertedMirror(tasks: seq<Task>, done: seq<Id>, registry: Registry)
    requires Known(tasks, Reversed(done))
    ensures Mirrors(done, TaskIds(InvertedTasks(tasks, Reversed(done), registry)))
  {
    var twins := InvertedTasks(tasks, Reversed(done), registry);
    forall i | 0 <= i < |done| ensures twins[i].id == RollbackId(done[|done| - 1 - i]) {
      assert TaskOf(tasks, Reversed(done)[i]).id == done[|done| - 1 - i];
    }
  }

  lemma CompletedClosed(deps: seq<Dependency>, order: seq<Id>, done: seq<Id>)
    requires PredecessorsFirst(deps, order) && Distinct(order) && done <= order
    ensures PredecessorsFirst(deps, done) && Distinct(done)
    ensures forall u, v | v in done && Edge(deps, u, v) :: u in done
  {
    forall i, u | 0 <= i < |done| && Edge(deps, u, done[i]) ensures u in done[..i] {
      assert order[..i] == done[..i];
    }
  }

  lemma PartialIsSuffix(p: PlanVersion, registry: Registry, order: seq<Id>, done: seq<Id>)
    requires done <= order
    requires Known(p.tasks, Reversed(order)) && Known(p.tasks, Reversed(done))
    ensures var full, part :=
              InvertedTasks(p.tasks, Reversed(order), registry), InvertedTasks(p.tasks, Reversed(done), registry);
            full[|full| - |part|..] == part
  {
    var full, part :=
      InvertedTasks(p.tasks, Reversed(order), registry), InvertedTasks(p.tasks, Reversed(done), registry);
    var shift := |full| - |part|;
    forall i | 0 <= i < |part| ensures full[shift..][i] == part[i] {
      assert Reversed(order)[shift + i] == Reversed(done)[i];
    }
  }

  // ------------------------------------------------------------------------ undoing

  /** Run tasks left to right under an arbitrary meaning of (action, target). */
  ghost function Execute<S>(meaning: (string, string, S) -> S, tasks: seq<Task>, s: S): S {
    if tasks == [] then s
    else Execute(meaning, tasks[1..], meaning(tasks[0].action, tasks[0].target, s))
  }

  lemma {:induction false} ExecuteConcat<S>(meaning: (string, string, S) -> S, a: seq<Task>, b: seq<Task>, s: S)
    ensures Execute(meaning, a + b, s) == Execute(meaning, b, Execute(meaning, a, s))
  {
    if a == [] {
      assert a + b == b;
    } else {
      assert (a + b)[1..] == a[1..] + b;
      ExecuteConcat(meaning, a[1..], b, meaning(a[0].action, a[0].target, s));
    }
  }

  ghost function ForwardTasks(tasks: seq<Task>, ids: seq<Id>): (r: seq<Task>)
    requires Known(tasks, ids)
    ensures |r| == |ids| && forall i | 0 <= i < |ids| :: r[i] == TaskOf(tasks, ids[i])
  {
    seq(|ids|, i requires 0 <= i < |ids| => TaskOf(tasks, ids[i]))
  }

  /** At the state each step was run in, its emitted inverse undoes it. */
  ghost predicate InversesUndo<S>(
      meaning: (string, string, S) -> S, tasks: seq<Task>, ids: seq<Id>, registry: Registry, s: S)
    requires Known(tasks, ids)
  {
    forall k | 0 <= k < |ids| ::
      var before := Execute(meaning, ForwardTasks(tasks, ids)[..k], s);
      var t := TaskOf(tasks, ids[k]);
      var inv := InvertTask(t, registry).task;
      meaning(inv.action, inv.target, meaning(t.action, t.target, before)) == before
  }

  lemma KnownParts(tasks: seq<Task>, a: seq<Id>, b: seq<Id>)
    ensures Known(tasks, a + b) <==> Known(tasks, a) && Known(tasks, b)
  {
    assert forall v :: v in a + b <==> v in a || v in b;
  }

  lemma InvertedConcat(tasks: seq<Task>, a: seq<Id>, b: seq<Id>, registry: Registry)
    requires Known(tasks, a) && Known(tasks, b)
    ensures Known(tasks, a + b)
    ensures InvertedTasks(tasks, a + b, registry)
        == InvertedTasks(tasks, a, registry) + InvertedTasks(tasks, b, registry)
  {
    KnownParts(tasks, a, b);
  }

  lemma ForwardConcat(tasks: seq<Task>, a: seq<Id>, b: seq<Id>)
    requires Known(tasks, a) && Known(tasks, b)
    ensures Known(tasks, a + b)
    ensures ForwardTasks(tasks, a + b) == ForwardTasks(tasks, a) + ForwardTasks(tasks, b)
  {
    KnownParts(tasks, a, b);
  }

  lemma ReversedUnfolds<T>(s: seq<T>)
    requires s != []
    ensures Reversed(s) == [s[|s| - 1]] + Reversed(s[..|s| - 1])
    ensures s == s[..|s| - 1] + [s[|s| - 1]]
    ensures forall x | x in Reversed(s) :: x in s
  {
  }

  /** The inverted list starts with the inverse of the last step and goes on with the inverted rest. */
  lemma InvertedListUnfolds(tasks: seq<Task>, ids: seq<Id>, registry: Registry)
    requires ids != [] && Known(tasks, ids)
    ensures var n := |ids| - 1;
            && Known(tasks, ids[..n]) && Known(tasks, Reversed(ids[..n])) && Known(tasks, Reversed(ids))
            && InvertedTasks(tasks, Reversed(ids), registry) ==
               [InvertTask(TaskOf(tasks, ids[n]), registry).task] + InvertedTasks(tasks, Reversed(ids[..n]), registry)
            && ForwardTasks(tasks, ids) == ForwardTasks(tasks, ids[..n]) + [TaskOf(tasks, ids[n])]
  {
    var n := |ids| - 1;
    ReversedUnfolds(ids);
    assert Known(tasks, Reversed(ids));
    KnownParts(tasks, ids[..n], [ids[n]]);
    KnownParts(tasks, [ids[n]], Reversed(ids[..n]));
    InvertedConcat(tasks, [ids[n]], Reversed(ids[..n]), registry);
    ForwardConcat(tasks, ids[..n], [ids[n]]);
  }

  /** Running the completed steps and then their inverted list restores the starting state. */
  lemma {:induction false} InvertedListRestores<S>(
      meaning: (string, string, S) -> S, tasks: seq<Task>, ids: seq<Id>, registry: Registry, s: S)
    requires Known(tasks, ids) && Known(tasks, Reversed(ids)) && InversesUndo(meaning, tasks, ids, registry, s)
    ensures Execute(meaning, InvertedTasks(tasks, Reversed(ids), registry),
                    Execute(meaning, ForwardTasks(tasks, ids), s)) == s
  {
    if ids != [] {
      var n := |ids| - 1;
      InvertedListUnfolds(tasks, ids, registry);
      var t := TaskOf(tasks, ids[n]);
      var before := Execute(meaning, ForwardTasks(tasks, ids[..n]), s);
      UndoPrefix(meaning, tasks, ids, registry, s);
      InvertedListRestores(meaning, tasks, ids[..n], registry, s);
      ExecuteConcat(meaning, ForwardTasks(tasks, ids[..n]), [t], s);
      OneStep(meaning, t, before);
      var inv := InvertTask(t, registry).task;
      ExecuteConcat(meaning, [inv], InvertedTasks(tasks, Reversed(ids[..n]), registry),
                    meaning(t.action, t.target, before));
      OneStep(meaning, inv, meaning(t.action, t.target, before));
    }
  }

  lemma OneStep<S>(meaning: (string, string, S) -> S, t: Task, s: S)
    ensures Execute(meaning, [t], s) == meaning(t.action, t.target, s)
  {
    assert [t][1..] == [];
  }

  lemma UndoPrefix<S>(meaning: (string, string, S) -> S, tasks: seq<Task>, ids: seq<Id>, registry: Registry, s: S)
    requires ids != [] && Known(tasks, ids) && InversesUndo(meaning, tasks, ids, registry, s)
    ensures Known(tasks, ids[..|ids| - 1]) && InversesUndo(meaning, tasks, ids[..|ids| - 1], registry, s)
  {
    var front := ids[..|ids| - 1];
    forall k | 0 <= k < |front|
      ensures ForwardTasks(tasks, front)[..k] == ForwardTasks(tasks, ids)[..k]
    {
    }
  }

  /** The meaning of a partial rollback: failing at any step and running it undoes what was done. */
  lemma PartialRollbackRestores<S>(
      meaning: (string, string, S) -> S, p: PlanVersion, registry: Registry, order: seq<Id>, failed: Id, s: S)
    requires IsDag(p) && IsTopologicalOrder(p, order)
    requires Known(p.tasks, Completed(order, failed))
    requires InversesUndo(meaning, p.tasks, Completed(order, failed), registry, s)
    ensures Known(p.tasks, Reversed(Completed(order, failed)))
    ensures Execute(meaning, PartialRollback(p, registry, order, failed).tasks,
                    Execute(meaning, ForwardTasks(p.tasks, Completed(order, failed)), s)) == s
  {
    OrderIsKnown(p, order, failed);
    InvertedListRestores(meaning, p.tasks, Completed(order, failed), registry, s);
  }

  // ------------------------------------------------------------- what the verbs mean

  /** Where `act` applies, `undo` on the same target gives the state back. */
  ghost predicate Undoes<S(!new)>(
      meaning: (string, string, S) -> S, applies: (string, string, S) -> bool, act: string, undo: string)
  {
    forall target, s | applies(act, target, s) :: meaning(undo, target, meaning(act, target, s)) == s
  }

  /** The laws the verbs are meant to obey: nine named inverses, snapshots, and a step that does nothing. */
  ghost predicate VerbLaws<S(!new)>(meaning: (string, string, S) -> S, applies: (string, string, S) -> bool) {
    && Undoes(meaning, applies, "delete", "restore") && Undoes(meaning, applies, "add", "remove")
    && Undoes(meaning, applies, "remove", "add") && Undoes(meaning, applies, "disable", "enable")
    && Undoes(meaning, applies, "stop", "start") && Undoes(meaning, applies, "unmount", "mount")
    && Undoes(meaning, applies, "deprovision", "provision") && Undoes(meaning, applies, "undeploy", "deploy")
    && Undoes(meaning, applies, "revert", "apply")
    && (forall verb | TakesSnapshot(verb) :: Undoes(meaning, applies, verb, "restore_snapshot"))
    && forall target, s :: meaning("sys.noop", target, s) == s
  }

  ghost predicate TakesSnapshot(verb: string) {
    || verb == "create" || verb == "migrate" || verb == "transform" || verb == "update" || verb == "replace"
    || verb == "enable" || verb == "insert" || verb == "provision" || verb == "deploy" || verb == "apply"
  }

  ghost predicate HasInverse(verb: string) {
    || verb == "delete" || verb == "add" || verb == "remove" || verb == "disable" || verb == "stop"
    || verb == "unmount" || verb == "deprovision" || verb == "undeploy" || verb == "revert"
  }

  ghost predicate Reversible(verb: string) {
    HasInverse(verb) || TakesSnapshot(verb)
  }

  /** The registry the synthesizer has when it is given none. */
  ghost predicate IsDefault(registry: Registry) {
    && registry.Keys == INVERSIONS.Keys + SNAPSHOT_ACTIONS + NON_REVERSIBLE_ACTIONS
    && forall a | a in registry :: registry[a] == DefaultClass(a)
  }

  lemma VerbsWithInverse(verb: string)
    ensures verb in INVERSIONS <==> HasInverse(verb)
  {
  }

  lemma VerbsWithSnapshot(verb: string)
    ensures verb in SNAPSHOT_ACTIONS <==> TakesSnapshot(verb)
  {
  }

  lemma IrreversibleVerbs(verb: string)
    requires verb in NON_REVERSIBLE_ACTIONS
    ensures !Reversible(verb)
  {
  }

  lemma InverseIsNotSnapshot(verb: string)
    requires HasInverse(verb)
    ensures !TakesSnapshot(verb)
  {
  }

  /** The verb a default rollback step gets. */
  lemma DefaultTwin(task: Task, registry: Registry)
    requires IsDefault(registry)
    ensures var inv, verb := InvertTask(task, registry), task.action;
            && inv.task.target == task.target
            && (HasInverse(verb) ==> verb in INVERSIONS && inv.task.action == INVERSIONS[verb])
            && (TakesSnapshot(verb) ==> inv.task.action == "restore_snapshot")
            && (!Reversible(verb) ==> inv.task.action == "sys.noop")
            && (inv.skipped <==> !Reversible(verb))
  {
    VerbsWithInverse(task.action);
    VerbsWithSnapshot(task.action);
    if task.action in NON_REVERSIBLE_ACTIONS {
      IrreversibleVerbs(task.action);
    }
    if HasInverse(task.action) {
      InverseIsNotSnapshot(task.action);
    }
  }

  lemma InverseVerbUndoes<S(!new)>(
      meaning: (string, string, S) -> S, applies: (string, string, S) -> bool, verb: string)
    requires VerbLaws(meaning, applies) && HasInverse(verb)
    ensures verb in INVERSIONS && Undoes(meaning, applies, verb, INVERSIONS[verb])
  {
    VerbsWithInverse(verb);
  }

  /** A default rollback step undoes a reversible step that applied, and a step that changed nothing. */
  lemma DefaultTwinUndoes<S(!new)>(
      meaning: (string, string, S) -> S, applies: (string, string, S) -> bool, t: Task, registry: Registry, s: S)
    requires IsDefault(registry) && VerbLaws(meaning, applies) && UndoableAt(meaning, applies, t, s)
    ensures var inv := InvertTask(t, registry).task;
            meaning(inv.action, inv.target, meaning(t.action, t.target, s)) == s
  {
    DefaultTwin(t, registry);
    if HasInverse(t.action) {
      InverseVerbUndoes(meaning, applies, t.action);
    }
  }

  /** A reversible verb that applies here, or a step that changes nothing here. */
  ghost predicate UndoableAt<S>(
      meaning: (string, string, S) -> S, applies: (string, string, S) -> bool, t: Task, s: S)
  {
    if Reversible(t.action) then applies(t.action, t.target, s) else meaning(t.action, t.target, s) == s
  }

  /** Every step is undoable in the state it is run in. */
  ghost predicate Undoable<S>(
      meaning: (string, string, S) -> S, applies: (string, string, S) -> bool, tasks: seq<Task>, s: S)
  {
    forall k | 0 <= k < |tasks| :: UndoableAt(meaning, applies, tasks[k], Execute(meaning, tasks[..k], s))
  }

  lemma DefaultInversesUndo<S(!new)>(
      meaning: (string, string, S) -> S, applies: (string, string, S) -> bool, tasks: seq<Task>, ids: seq<Id>,
      registry: Registry, s: S)
    requires Known(tasks, ids) && IsDefault(registry) && VerbLaws(meaning, applies)
    requires Undoable(meaning, applies, ForwardTasks(tasks, ids), s)
    ensures InversesUndo(meaning, tasks, ids, registry, s)
  {
    forall k | 0 <= k < |ids|
      ensures var before, t := Execute(meaning, ForwardTasks(tasks, ids)[..k], s), TaskOf(tasks, ids[k]);
              var inv := InvertTask(t, registry).task;
              meaning(inv.action, inv.target, meaning(t.action, t.target, before)) == before
    {
      DefaultTwinUndoes(meaning, applies, TaskOf(tasks, ids[k]), registry,
                        Execute(meaning, ForwardTasks(tasks, ids)[..k], s));
    }
  }

  /**
   * What the default rollback is for: under any meaning that obeys the laws of the verbs, running a plan and then
   * its rollback gives the state back, as long as each step applied where it was run or changed nothing.
   */
  lemma DefaultRollbackRestores<S(!new)>(
      meaning: (string, string, S) -> S, applies: (string, string, S) -> bool, p: PlanVersion, registry: Registry,
      order: seq<Id>, s: S)
    requires IsDag(p) && IsTopologicalOrder(p, order) && IsDefault(registry) && VerbLaws(meaning, applies)
    requires Known(p.tasks, order) && Undoable(meaning, applies, ForwardTasks(p.tasks, order), s)
    ensures Known(p.tasks, Reversed(order))
    ensures Execute(meaning, FullRollback(p, registry, order).tasks,
                    Execute(meaning, ForwardTasks(p.tasks, order), s)) == s
  {
    OrderIsKnown(p, order, Id(""));
    DefaultInversesUndo(meaning, applies, p.tasks, order, registry, s);
    InvertedListRestores(meaning, p.tasks, order, registry, s);
  }

  /** The same after a failure: the steps before the failed one, then the partial rollback. */
  lemma DefaultPartialRollbackRestores<S(!new)>(
      meaning: (string, string, S) -> S, applies: (string, string, S) -> bool, p: PlanVersion, registry: Registry,
      order: seq<Id>, failed: Id, s: S)
    requires IsDag(p) && IsTopologicalOrder(p, order) && IsDefault(registry) && VerbLaws(meaning, applies)
    requires Known(p.tasks, Completed(order, failed))
    requires Undoable(meaning, applies, ForwardTasks(p.tasks, Completed(order, failed)), s)
    ensures Known(p.tasks, Reversed(Completed(order, failed)))
    ensures Execute(meaning, PartialRollback(p, registry, order, failed).tasks,
                    Execute(meaning, ForwardTasks(p.tasks, Completed(order, failed)), s)) == s
  {
    DefaultInversesUndo(meaning, applies, p.tasks, Completed(order, failed), registry, s);
    PartialRollbackRestores(meaning, p, registry, order, failed, s);
  }

  /** A step that cannot be undone stays: its rollback step leaves every state as it is. */
  lemma IrreversibleStepStays<S(!new)>(
      meaning: (string, string, S) -> S, applies: (string, string, S) -> bool, t: Task, registry: Registry, s: S)
    requires IsDefault(registry) && VerbLaws(meaning, applies) && !Reversible(t.action)
    ensures Execute(meaning, [InvertTask(t, registry).task], s) == s
  {
    DefaultTwin(t, registry);
    OneStep(meaning, InvertTask(t, registry).task, s);
  }

  // ----------------------------------------------------- any schedule the edges allow

  ghost function Run<S>(step: (Id, S) -> S, ids: seq<Id>, s: S): S {
    if ids == [] then s else Run(step, ids[1..], step(ids[0], s))
  }

  /** Tasks that neither reach the other may be swapped. */
  ghost predicate IncomparableCommute<S(!new)>(deps: seq<Dependency>, step: (Id, S) -> S) {
    forall x, y, s | !Reaches(deps, x, y) && !Reaches(deps, y, x) :: step(x, step(y, s)) == step(y, step(x, s))
  }

  ghost predicate RespectsReach(deps: seq<Dependency>, ids: seq<Id>) {
    forall i, j | 0 <= i < j < |ids| :: !Reaches(deps, ids[j], ids[i])
  }

  lemma RunRespectsReach(deps: seq<Dependency>, order: seq<Id>)
    requires Distinct(order) && PredecessorsFirst(deps, order)
    ensures RespectsReach(deps, order)
  {
    forall i, j | 0 <= i < j < |order| ensures !Reaches(deps, order[j], order[i]) {
      if Reaches(deps, order[j], order[i]) {
        ReachesGoesForward(deps, order, order[j], i);
      }
    }
  }

  /** A task incomparable to everything before it may be run first. */
  lemma {:induction false} MoveToFront<S(!new)>(deps: seq<Dependency>, step: (Id, S) -> S, front: seq<Id>, x: Id, s: S)
    requires IncomparableCommute(deps, step)
    requires forall v | v in front :: !Reaches(deps, x, v) && !Reaches(deps, v, x)
    ensures Run(step, front + [x], s) == Run(step, [x] + front, s)
  {
    if front == [] {
      assert front + [x] == [x] + front;
    } else {
      var y, rest := front[0], front[1..];
      assert (front + [x])[1..] == rest + [x];
      MoveToFront(deps, step, rest, x, step(y, s));
      assert ([x] + rest)[1..] == rest && ([x] + front)[1..] == front;
    }
  }

  lemma {:induction false} RunConcat<S>(step: (Id, S) -> S, a: seq<Id>, b: seq<Id>, s: S)
    ensures Run(step, a + b, s) == Run(step, b, Run(step, a, s))
  {
    if a == [] {
      assert a + b == b;
    } else {
      assert (a + b)[1..] == a[1..] + b;
      RunConcat(step, a[1..], b, step(a[0], s));
    }
  }

  lemma CutOut<T>(a: seq<T>, k: nat)
    requires k < |a|
    ensures a == (a[..k] + [a[k]]) + a[k + 1..]
    ensures ([a[k]] + a[..k]) + a[k + 1..] == [a[k]] + (a[..k] + a[k + 1..])
  {
  }

  lemma RunHead<S>(step: (Id, S) -> S, x: Id, rest: seq<Id>, s: S)
    ensures Run(step, [x] + rest, s) == Run(step, rest, step(x, s))
  {
    assert ([x] + rest)[1..] == rest;
  }

  lemma RunOneFirst<S(!new)>(deps: seq<Dependency>, step: (Id, S) -> S, a: seq<Id>, k: nat, s: S)
    requires k < |a| && IncomparableCommute(deps, step)
    requires forall v | v in a[..k] :: !Reaches(deps, a[k], v) && !Reaches(deps, v, a[k])
    ensures Run(step, a, s) == Run(step, a[..k] + a[k + 1..], step(a[k], s))
  {
    var front, x, back := a[..k], a[k], a[k + 1..];
    CutOut(a, k);
    RunConcat(step, front + [x], back, s);
    MoveToFront(deps, step, front, x, s);
    RunConcat(step, [x] + front, back, s);
    RunHead(step, x, front + back, s);
  }

  /** Two lists of the same tasks that respect the same edges have the same effect. */
  lemma {:induction false} SchedulesAgree<S(!new)>(
      deps: seq<Dependency>, step: (Id, S) -> S, a: seq<Id>, b: seq<Id>, s: S)
    requires Distinct(a) && Distinct(b) && Elements(a) == Elements(b)
    requires RespectsReach(deps, a) && RespectsReach(deps, b)
    requires IncomparableCommute(deps, step)
    ensures Run(step, a, s) == Run(step, b, s)
    decreases |b|
  {
    if b == [] {
      assert forall i | 0 <= i < |a| :: a[i] in Elements(a);
    } else {
      assert b[0] in Elements(a);
      var k :| 0 <= k < |a| && a[k] == b[0];
      FrontIsIncomparable(deps, a, b, k);
      RunOneFirst(deps, step, a, k, s);
      RemoveOne(deps, a, b, k);
      SchedulesAgree(deps, step, a[..k] + a[k + 1..], b[1..], step(b[0], s));
    }
  }

  lemma FrontIsIncomparable(deps: seq<Dependency>, a: seq<Id>, b: seq<Id>, k: nat)
    requires Elements(a) == Elements(b) && RespectsReach(deps, a) && RespectsReach(deps, b) && Distinct(a)
    requires b != [] && k < |a| && a[k] == b[0]
    ensures forall v | v in a[..k] :: !Reaches(deps, b[0], v) && !Reaches(deps, v, b[0])
  {
    forall v | v in a[..k] ensures !Reaches(deps, b[0], v) && !Reaches(deps, v, b[0]) {
      var i :| 0 <= i < k && a[i] == v;
      assert v in Elements(b);
      var j :| 0 <= j < |b| && b[j] == v;
      assert j != 0;
    }
  }

  lemma RemoveAt(deps: seq<Dependency>, a: seq<Id>, k: nat)
    requires Distinct(a) && RespectsReach(deps, a) && k < |a|
    ensures var c := a[..k] + a[k + 1..];
            Distinct(c) && RespectsReach(deps, c) && Elements(c) == Elements(a) - {a[k]}
  {
    var c := a[..k] + a[k + 1..];
    assert forall i | 0 <= i < |c| :: c[i] == a[if i < k then i else i + 1];
    ElementsWithout(a, k);
  }

  lemma ElementsWithout(a: seq<Id>, k: nat)
    requires Distinct(a) && k < |a|
    ensures Elements(a[..k] + a[k + 1..]) == Elements(a) - {a[k]}
  {
    assert a == a[..k] + [a[k]] + a[k + 1..];
  }

  lemma RemoveOne(deps: seq<Dependency>, a: seq<Id>, b: seq<Id>, k: nat)
    requires Distinct(a) && Distinct(b) && Elements(a) == Elements(b)
    requires RespectsReach(deps, a) && RespectsReach(deps, b)
    requires b != [] && k < |a| && a[k] == b[0]
    ensures var c := a[..k] + a[k + 1..];
            Distinct(c) && RespectsReach(deps, c) && Elements(c) == Elements(b[1..])
    ensures Distinct(b[1..]) && RespectsReach(deps, b[1..])
  {
    RemoveAt(deps, a, k);
    RemoveHead(deps, b);
  }

  lemma RemoveHead(deps: seq<Dependency>, b: seq<Id>)
    requires Distinct(b) && RespectsReach(deps, b) && b != []
    ensures Distinct(b[1..]) && RespectsReach(deps, b[1..]) && Elements(b[1..]) == Elements(b) - {b[0]}
  {
    RemoveAt(deps, b, 0);
    assert b[..0] + b[1..] == b[1..];
  }

  /** What executing one task of a plan does. */
  ghost function StepOf<S>(meaning: (string, string, S) -> S, tasks: seq<Task>): (Id, S) -> S {
    (id, s) => if id in Ids(tasks) then meaning(TaskOf(tasks, id).action, TaskOf(tasks, id).target, s) else s
  }

  lemma {:induction false} RunIsExecute<S>(meaning: (string, string, S) -> S, tasks: seq<Task>, ids: seq<Id>, s: S)
    requires Known(tasks, ids)
    ensures Run(StepOf(meaning, tasks), ids, s) == Execute(meaning, ForwardTasks(tasks, ids), s)
  {
    if ids != [] {
      var t := TaskOf(tasks, ids[0]);
      RunIsExecute(meaning, tasks, ids[1..], meaning(t.action, t.target, s));
      assert ForwardTasks(tasks, ids)[1..] == ForwardTasks(tasks, ids[1..]);
    }
  }

  lemma OwnListExecutes(r: PlanVersion)
    requires DistinctIds(r.tasks)
    ensures Known(r.tasks, TaskIds(r.tasks)) && ForwardTasks(r.tasks, TaskIds(r.tasks)) == r.tasks
  {
    var ids := TaskIds(r.tasks);
    forall v | v in ids ensures v in Ids(r.tasks) {
      assert v in Elements(ids);
    }
    forall i | 0 <= i < |ids| ensures TaskOf(r.tasks, ids[i]) == r.tasks[i] {
      TaskIndexFinds(r.tasks, ids[i]);
    }
  }

  /**
   * The edges of a rollback plan say enough: every schedule that runs each task once and respects
   * them restores the starting state, as long as unordered rollback steps commute.
   */
  lemma AnyScheduleRestores<S(!new)>(
      meaning: (string, string, S) -> S, p: PlanVersion, registry: Registry, order: seq<Id>, failed: Id,
      schedule: seq<Id>, s: S)
    requires IsDag(p) && IsTopologicalOrder(p, order)
    requires Known(p.tasks, Completed(order, failed)) && Known(p.tasks, Reversed(Completed(order, failed)))
    requires InversesUndo(meaning, p.tasks, Completed(order, failed), registry, s)
    requires var r := PartialRollback(p, registry, order, failed);
             KahnRun(r, schedule) && IncomparableCommute(r.dependencies, StepOf(meaning, r.tasks))
    ensures var r := PartialRollback(p, registry, order, failed);
            Run(StepOf(meaning, r.tasks), schedule,
                Execute(meaning, ForwardTasks(p.tasks, Completed(order, failed)), s)) == s
  {
    var r := PartialRollback(p, registry, order, failed);
    var after := Execute(meaning, ForwardTasks(p.tasks, Completed(order, failed)), s);
    PartialRollbackIsDag(p, registry, order, failed);
    PartialRollbackRestores(meaning, p, registry, order, failed, s);
    var listed := TaskIds(r.tasks);
    OwnListExecutes(r);
    RunIsExecute(meaning, r.tasks, listed, after);
    RunsListSameTasks(r, listed, schedule);
    RunRespectsReach(r.dependencies, listed);
    RunRespectsReach(r.dependencies, schedule);
    SchedulesAgree(r.dependencies, StepOf(meaning, r.tasks), listed, schedule, after);
  }

  // ------------------------------------------------------------------ the synthesizer

  datatype TraceReason = NonReversibleStepSkipped | DagGenerated | ExecutionTriggered

  datatype TraceFinding = TraceFinding(planId: string, planVersion: nat, taskId: Option<Id>, reason: TraceReason)

  /** One record per skipped step, in rollback order. */
  ghost function SkipTrace(p: PlanVersion, ids: seq<Id>, registry: Registry): seq<TraceFinding>
    requires Known(p.tasks, ids)
  {
    if ids == [] then []
    else
      var n := |ids| - 1;
      SkipTrace(p, ids[..n], registry) +
      if InvertTask(TaskOf(p.tasks, ids[n]), registry).skipped
      then [TraceFinding(p.id, p.version, Some(ids[n]), NonReversibleStepSkipped)] else []
  }

  lemma SkipTraceAppend(p: PlanVersion, ids: seq<Id>, id: Id, registry: Registry)
    requires Known(p.tasks, ids) && id in Ids(p.tasks)
    ensures Known(p.tasks, ids + [id])
    ensures SkipTrace(p, ids + [id], registry) == SkipTrace(p, ids, registry) +
              if InvertTask(TaskOf(p.tasks, id), registry).skipped
              then [TraceFinding(p.id, p.version, Some(id), NonReversibleStepSkipped)] else []
  {
    assert (ids + [id])[..|ids|] == ids;
  }

  /** With a registry that has no silent no-ops, the trace names exactly the steps whose rollback does nothing. */
  lemma {:induction false} TraceRecordsNoops(p: PlanVersion, ids: seq<Id>, registry: Registry, id: Id)
    requires Known(p.tasks, ids) && NoSilentNoops(registry) && id in Ids(p.tasks)
    ensures TraceFinding(p.id, p.version, Some(id), NonReversibleStepSkipped) in SkipTrace(p, ids, registry) <==>
            id in ids && InvertTask(TaskOf(p.tasks, id), registry).task.action == NOOP
  {
    SilentNoopIff(TaskOf(p.tasks, id), registry);
    if ids != [] {
      var n := |ids| - 1;
      TraceRecordsNoops(p, ids[..n], registry, id);
      SplitLast(ids);
      LastSkip(p, ids, registry, id);
    }
  }

  lemma LastSkip(p: PlanVersion, ids: seq<Id>, registry: Registry, id: Id)
    requires Known(p.tasks, ids) && ids != []
    ensures var n, f := |ids| - 1, TraceFinding(p.id, p.version, Some(id), NonReversibleStepSkipped);
            f in SkipTrace(p, ids, registry) <==>
            f in SkipTrace(p, ids[..n], registry)
            || (ids[n] == id && InvertTask(TaskOf(p.tasks, ids[n]), registry).skipped)
  {
  }

  lemma InvertOneMore(p: PlanVersion, ids: seq<Id>, i: nat, registry: Registry)
    requires Known(p.tasks, ids) && i < |ids|
    ensures Known(p.tasks, ids[..i]) && Known(p.tasks, ids[..i + 1]) && ids[i] in Ids(p.tasks)
    ensures var inv := InvertTask(TaskOf(p.tasks, ids[i]), registry);
            && InvertedTasks(p.tasks, ids[..i + 1], registry) == InvertedTasks(p.tasks, ids[..i], registry) + [inv.task]
            && SkipTrace(p, ids[..i + 1], registry) == SkipTrace(p, ids[..i], registry) +
                 if inv.skipped then [TraceFinding(p.id, p.version, Some(ids[i]), NonReversibleStepSkipped)] else []
  {
    assert ids[i] in ids;
    assert ids[..i + 1] == ids[..i] + [ids[i]];
    InvertedConcat(p.tasks, ids[..i], [ids[i]], registry);
    SkipTraceAppend(p, ids[..i], ids[i], registry);
  }

  /** With the default registry the trace names exactly the steps that cannot be undone. */
  lemma DefaultTraceNames(p: PlanVersion, ids: seq<Id>, registry: Registry, id: Id)
    requires Known(p.tasks, ids) && IsDefault(registry) && id in Ids(p.tasks)
    ensures TraceFinding(p.id, p.version, Some(id), NonReversibleStepSkipped) in SkipTrace(p, ids, registry) <==>
            id in ids && !Reversible(TaskOf(p.tasks, id).action)
  {
    assert NoSilentNoops(registry);
    TraceRecordsNoops(p, ids, registry, id);
    SilentNoopIff(TaskOf(p.tasks, id), registry);
    DefaultTwin(TaskOf(p.tasks, id), registry);
  }

  /** The rollback steps carry the forward steps' names and targets. */
  ghost predicate Twins(tasks: seq<Task>, ids: seq<Id>, twins: seq<Task>) {
    && Known(tasks, ids) && |twins| == |ids|
    && forall i | 0 <= i < |ids| ::
         && twins[i].id.name == "rollback:" + ids[i].name && twins[i].description == "rollback of " + ids[i].name
         && twins[i].target == TaskOf(tasks, ids[i]).target && twins[i].riskClass == Low
  }

  /** A first version for the same goal, derived from p. */
  ghost predicate Heads(r: PlanVersion, p: PlanVersion, prefix: string) {
    r.id == prefix + p.id && r.goalId == p.goalId && r.version == 1 && r.parentVersion == Some(p.id)
  }

  ghost function HardEdges(deps: seq<Dependency>): set<int> {
    set i | 0 <= i < |deps| && deps[i].kind.Hard?
  }

  lemma HardEdgesOneMore(deps: seq<Dependency>)
    requires deps != []
    ensures var n := |deps| - 1;
            |HardEdges(deps)| == |HardEdges(deps[..n])| + if deps[n].kind.Hard? then 1 else 0
  {
    var n := |deps| - 1;
    assert HardEdges(deps) == HardEdges(deps[..n]) + if deps[n].kind.Hard? then {n} else {};
  }

  /** One reversed edge for every hard one, repeats included, each with the given reason. */
  lemma {:induction false} ReversedEdgesAreHard(deps: seq<Dependency>, within: Option<set<Id>>)
    ensures forall d | d in ReversedEdges(deps, within) :: d.kind.Hard? &&
              d.reason == if within.None? then "reversed for rollback" else "reversed for partial rollback"
    ensures within.None? ==> |ReversedEdges(deps, within)| == |HardEdges(deps)|
  {
    if deps != [] {
      ReversedEdgesAreHard(deps[..|deps| - 1], within);
      HardEdgesOneMore(deps);
    }
  }

  datatype BuildResult = Built(plan: PlanVersion) | CyclicPlan

  class InverseRollbackSynthesizer {
    const registry: Registry
    var trace: seq<TraceFinding>

    constructor (custom: Option<Registry>)
      ensures custom.Some? && custom.value != map[] ==> registry == custom.value
      ensures custom.None? || custom.value == map[] ==>
                NoSilentNoops(registry) && IsDefault(registry)
      ensures trace == []
    {
      trace := [];
      if custom.Some? && custom.value != map[] {
        registry := custom.value;
      } else {
        var defaults := ActionInversionRegistry(map[]);
        registry := defaults;
      }
    }

    method InvertAll(p: PlanVersion, ids: seq<Id>) returns (tasks: seq<Task>)
      requires Known(p.tasks, ids)
      modifies this
      ensures tasks == InvertedTasks(p.tasks, ids, registry) && Twins(p.tasks, ids, tasks)
      ensures trace == SkipTrace(p, ids, registry)
    {
      trace := [];
      tasks := [];
      for i := 0 to |ids|
        invariant Known(p.tasks, ids[..i])
        invariant tasks == InvertedTasks(p.tasks, ids[..i], registry)
        invariant trace == SkipTrace(p, ids[..i], registry)
      {
        InvertOneMore(p, ids, i, registry);
        var inv := InvertTask(TaskOf(p.tasks, ids[i]), registry);
        tasks := tasks + [inv.task];
        if inv.skipped {
          trace := trace + [TraceFinding(p.id, p.version, Some(ids[i]), NonReversibleStepSkipped)];
        }
      }
      assert ids[..|ids|] == ids;
    }

    method BuildRollback(p: PlanVersion) returns (r: BuildResult, ghost order: seq<Id>)
      requires Resolvable(p)
      modifies this
      ensures r.Built? <==> IsDag(p)
      ensures r.CyclicPlan? ==> trace == old(trace)
      ensures r.Built? ==>
                && IsTopologicalOrder(p, order) && Known(p.tasks, Reversed(order))
                && r.plan == FullRollback(p, registry, order)
                && Heads(r.plan, p, "rollback-") && Twins(p.tasks, Reversed(order), r.plan.tasks)
                && (forall d | d in r.plan.dependencies :: d.kind.Hard? && d.reason == "reversed for rollback")
                && |r.plan.dependencies| == |HardEdges(p.dependencies)|
                && trace == SkipTrace(p, Reversed(order), registry)
                   + [TraceFinding(p.id, p.version, None, DagGenerated)]
    {
      order := [];
      var valid := RollbackDagValid(p);
      if !valid {
        return CyclicPlan, order;
      }
      var forward := TopologicalOrder(p);
      order := forward;
      OrderIsKnown(p, forward, Id(""));
      var tasks := InvertAll(p, Reversed(forward));
      trace := trace + [TraceFinding(p.id, p.version, None, DagGenerated)];
      ReversedEdgesAreHard(p.dependencies, None);
      r := Built(PlanVersion("rollback-" + p.id, p.goalId, 1, Some(p.id), tasks, ReversedEdges(p.dependencies, None)));
    }

    method BuildPartialRollback(p: PlanVersion, failed: Id) returns (r: BuildResult, ghost order: seq<Id>)
      requires Resolvable(p)
      modifies this
      ensures r.Built? <==> IsDag(p)
      ensures r.CyclicPlan? ==> trace == old(trace)
      ensures r.Built? ==>
                && IsTopologicalOrder(p, order) && Known(p.tasks, Reversed(Completed(order, failed)))
                && r.plan == PartialRollback(p, registry, order, failed)
                && Heads(r.plan, p, "rollback-partial-")
                && Twins(p.tasks, Reversed(Completed(order, failed)), r.plan.tasks)
                && (forall d | d in r.plan.dependencies :: d.kind.Hard? && d.reason == "reversed for partial rollback")
                && trace == SkipTrace(p, Reversed(Completed(order, failed)), registry)
                            + [TraceFinding(p.id, p.version, None, ExecutionTriggered)]
    {
      order := [];
      var valid := RollbackDagValid(p);
      if !valid {
        return CyclicPlan, order;
      }
      var first := TopologicalOrder(p);
      var completed := CompletedSet(first, failed);
      var second := TopologicalOrder(p);
      TopologicalOrderUnique(p, first, second);
      order := second;
      OrderIsKnown(p, second, failed);
      var forward := KeepCompleted(second, completed, failed);
      var tasks := InvertAll(p, Reversed(forward));
      trace := trace + [TraceFinding(p.id, p.version, None, ExecutionTriggered)];
      ReversedEdgesAreHard(p.dependencies, Some(completed));
      r := Built(PlanVersion("rollback-partial-" + p.id, p.goalId, 1, Some(p.id), tasks,
                             ReversedEdges(p.dependencies, Some(completed))));
    }
  }

  /** Collect the ordered steps up to the failed one. */
  method CompletedSet(order: seq<Id>, failed: Id) returns (completed: set<Id>)
    ensures completed == Elements(Completed(order, failed))
  {
    completed := {};
    var i := 0;
    while i < |order|
      invariant 0 <= i <= |order|
      invariant failed !in order[..i]
      invariant completed == Elements(order[..i])
    {
      if order[i] == failed {
        break;
      }
      completed := completed + {order[i]};
      i := i + 1;
      assert order[..i] == order[..i - 1] + [order[i - 1]];
    }
    CompletedIs(order, failed, i);
  }

  lemma {:induction false} CompletedIs(order: seq<Id>, failed: Id, i: nat)
    requires i <= |order| && failed !in order[..i]
    requires i < |order| ==> order[i] == failed
    ensures Completed(order, failed) == order[..i]
  {
    if i > 0 {
      assert order[0] in order[..i];
      assert order[1..][..i - 1] == order[1..i];
      assert forall v | v in order[1..i] :: v in order[..i];
      CompletedIs(order[1..], failed, i - 1);
      assert order[..i] == [order[0]] + order[1..i];
    }
  }

  /** Filter the order by the completed set. */
  method KeepCompleted(order: seq<Id>, completed: set<Id>, ghost failed: Id) returns (forward: seq<Id>)
    requires Distinct(order) && completed == Elements(Completed(order, failed))
    ensures forward == Completed(order, failed)
  {
    ghost var done := Completed(order, failed);
    CompletedIsPrefix(order, failed);
    forward := [];
    for i := 0 to |order|
      invariant forward == done[..if i < |done| then i else |done|]
    {
      assert i < |done| ==> order[i] == done[i];
      assert i >= |done| ==> forall k | 0 <= k < |done| :: done[k] == order[k] != order[i];
      if order[i] in completed {
        forward := forward + [order[i]];
      }
    }
  }
}
