/** Plans, their hard-dependency graph, and what a complete run of Kahn's algorithm means. */
module PlanGraph {
  import opened Common

  datatype Id = Id(name: string)

  datatype DependencyKind = Hard | Soft

  datatype RiskClass = Low | Medium | High | Critical

  datatype Task = Task(id: Id, description: string, action: string, target: string, riskClass: RiskClass)

  datatype Dependency = Dependency(fromTask: Id, toTask: Id, kind: DependencyKind, reason: string)

  datatype PlanVersion = PlanVersion(
    id: string, goalId: string, version: nat, parentVersion: Option<string>,
    tasks: seq<Task>, dependencies: seq<Dependency>)

  ghost function Ids(tasks: seq<Task>): set<Id> {
    set t | t in tasks :: t.id
  }

  ghost predicate DistinctIds(tasks: seq<Task>) {
    forall i, j | 0 <= i < j < |tasks| :: tasks[i].id != tasks[j].id
  }

  ghost predicate Edge(deps: seq<Dependency>, x: Id, y: Id) {
    exists d | d in deps :: d.kind.Hard? && d.fromTask == x && d.toTask == y
  }

  /** Both ends of every hard edge are task ids. */
  ghost predicate Resolvable(p: PlanVersion) {
    forall d | d in p.dependencies && d.kind.Hard? :: d.fromTask in Ids(p.tasks) && d.toTask in Ids(p.tasks)
  }

  ghost predicate IsPath(deps: seq<Dependency>, path: seq<Id>) {
    && |path| >= 2
    && forall i, j | 0 <= i && j == i + 1 < |path| :: Edge(deps, path[i], path[j])
  }

  /** x reaches y along one or more hard edges. */
  ghost predicate Reaches(deps: seq<Dependency>, x: Id, y: Id) {
    exists path :: IsPath(deps, path) && path[0] == x && path[|path| - 1] == y
  }

  ghost predicate Acyclic(deps: seq<Dependency>) {
    forall x :: !Reaches(deps, x, x)
  }

  lemma EdgeReaches(deps: seq<Dependency>, x: Id, y: Id)
    requires Edge(deps, x, y)
    ensures Reaches(deps, x, y)
  {
    assert IsPath(deps, [x, y]);
  }

  lemma ReachesTransitive(deps: seq<Dependency>, x: Id, y: Id, z: Id)
    requires Reaches(deps, x, y) && Reaches(deps, y, z)
    ensures Reaches(deps, x, z)
  {
    var a :| IsPath(deps, a) && a[0] == x && a[|a| - 1] == y;
    var b :| IsPath(deps, b) && b[0] == y && b[|b| - 1] == z;
    var c := a + b[1..];
    forall i | 0 <= i < |c| - 1
      ensures Edge(deps, c[i], c[i + 1])
    {
      if i >= |a| - 1 {
        var k := i - (|a| - 1);
        assert c[i] == b[k] && c[i + 1] == b[k + 1];
      }
    }
    assert IsPath(deps, c);
  }

  /** A finite nonempty set of tasks of an acyclic plan has a member that no member reaches. */
  lemma MinimalMember(deps: seq<Dependency>, s: set<Id>) returns (m: Id)
    requires Acyclic(deps)
    requires s != {}
    ensures m in s
    ensures forall y | y in s :: !Reaches(deps, y, m)
    decreases |s|
  {
    var x :| x in s;
    var below := set y | y in s && Reaches(deps, y, x);
    if below == {} {
      m := x;
      forall y | y in s
        ensures !Reaches(deps, y, m)
      {
        assert y !in below;
      }
    } else {
      assert below <= s - {x};
      SubsetSize(below, s - {x});
      m := MinimalMember(deps, below);
      forall y | y in s
        ensures !Reaches(deps, y, m)
      {
        if y !in below && Reaches(deps, y, m) {
          ReachesTransitive(deps, y, m, x);
        }
      }
    }
  }

  lemma {:induction false} SubsetSize<T>(a: set<T>, b: set<T>)
    requires a <= b
    ensures |a| <= |b|
    decreases b
  {
    if a != {} {
      var x :| x in a;
      SubsetSize(a - {x}, b - {x});
    }
  }

  lemma IdsOneMore(tasks: seq<Task>)
    requires tasks != []
    ensures Ids(tasks) == Ids(tasks[..|tasks| - 1]) + {tasks[|tasks| - 1].id}
  {
    assert tasks == tasks[..|tasks| - 1] + [tasks[|tasks| - 1]];
  }

  /** Task ids are distinct exactly when there are as many ids as tasks. */
  lemma DistinctIdsBySize(tasks: seq<Task>)
    ensures |Ids(tasks)| <= |tasks|
    ensures DistinctIds(tasks) <==> |Ids(tasks)| == |tasks|
  {
    var ids := seq(|tasks|, i requires 0 <= i < |tasks| => tasks[i].id);
    assert Elements(ids) == Ids(tasks) by {
      forall v | v in Ids(tasks) ensures v in Elements(ids) {
        var i :| 0 <= i < |tasks| && tasks[i].id == v;
        assert ids[i] == v;
      }
    }
    assert DistinctIds(tasks) <==> Distinct(ids) by {
      assert forall i | 0 <= i < |tasks| :: ids[i] == tasks[i].id;
    }
    DistinctBySize(ids);
  }

  // ---------------------------------------------------------------- Kahn runs

  /** Every predecessor of a listed task is listed before it. */
  ghost predicate PredecessorsFirst(deps: seq<Dependency>, order: seq<Id>) {
    forall i, u | 0 <= i < |order| && Edge(deps, u, order[i]) :: u in order[..i]
  }

  /** A task all of whose predecessors are listed is listed. */
  ghost predicate Exhausted(p: PlanVersion, order: seq<Id>) {
    forall v | v in Ids(p.tasks) && (forall u | Edge(p.dependencies, u, v) :: u in order) :: v in order
  }

  /** The dequeue order of a finished Kahn run, whatever the queue discipline was. */
  ghost predicate KahnRun(p: PlanVersion, order: seq<Id>) {
    && Distinct(order)
    && (forall v | v in order :: v in Ids(p.tasks))
    && PredecessorsFirst(p.dependencies, order)
    && Exhausted(p, order)
  }

  lemma ListedBefore(deps: seq<Dependency>, order: seq<Id>, u: Id, j: nat) returns (k: nat)
    requires PredecessorsFirst(deps, order)
    requires j < |order| && Edge(deps, u, order[j])
    ensures k < j && order[k] == u
  {
    assert u in order[..j];
    k :| 0 <= k < j && order[k] == u;
  }

  lemma PathPrefix(deps: seq<Dependency>, path: seq<Id>, n: nat)
    requires IsPath(deps, path) && 2 <= n <= |path|
    ensures IsPath(deps, path[..n])
  {
    forall i | 0 <= i < n - 1 ensures Edge(deps, path[..n][i], path[..n][i + 1]) {
      assert Edge(deps, path[i], path[i + 1]);
    }
  }

  /** Along a path that ends inside the order, the first node is listed strictly before the last. */
  lemma {:induction false} PathGoesForward(deps: seq<Dependency>, order: seq<Id>, path: seq<Id>, j: nat)
    requires PredecessorsFirst(deps, order)
    requires IsPath(deps, path)
    requires j < |order| && path[|path| - 1] == order[j]
    ensures path[0] in order[..j]
    decreases |path|
  {
    var n := |path| - 1;
    assert Edge(deps, path[n - 1], path[n]);
    var k := ListedBefore(deps, order, path[n - 1], j);
    if n > 1 {
      PathPrefix(deps, path, n);
      PathGoesForward(deps, order, path[..n], k);
    }
  }

  lemma ReachesGoesForward(deps: seq<Dependency>, order: seq<Id>, x: Id, j: nat)
    requires PredecessorsFirst(deps, order)
    requires j < |order| && Reaches(deps, x, order[j])
    ensures x in order[..j]
  {
    var path :| IsPath(deps, path) && path[0] == x && path[|path| - 1] == order[j];
    PathGoesForward(deps, order, path, j);
  }

  /** A finished run lists every task exactly when no task reaches itself. */
  lemma RunCompleteIffAcyclic(p: PlanVersion, order: seq<Id>)
    requires Resolvable(p) && KahnRun(p, order)
    ensures Acyclic(p.dependencies) <==> Elements(order) == Ids(p.tasks)
  {
    if Elements(order) == Ids(p.tasks) {
      forall x ensures !Reaches(p.dependencies, x, x) {
        CompleteRunHasNoCycle(p, order, x);
      }
    }
    if Acyclic(p.dependencies) {
      AcyclicRunIsComplete(p, order);
    }
  }

  lemma CompleteRunHasNoCycle(p: PlanVersion, order: seq<Id>, x: Id)
    requires Resolvable(p) && KahnRun(p, order) && Elements(order) == Ids(p.tasks)
    ensures !Reaches(p.dependencies, x, x)
  {
    if Reaches(p.dependencies, x, x) {
      var path :| IsPath(p.dependencies, path) && path[0] == x && path[|path| - 1] == x;
      assert Edge(p.dependencies, path[0], path[1]);
      assert x in Elements(order);
      var j :| 0 <= j < |order| && order[j] == x;
      ReachesGoesForward(p.dependencies, order, x, j);
    }
  }

  lemma AcyclicRunIsComplete(p: PlanVersion, order: seq<Id>)
    requires Resolvable(p) && KahnRun(p, order) && Acyclic(p.dependencies)
    ensures Elements(order) == Ids(p.tasks)
  {
    var left := Ids(p.tasks) - Elements(order);
    assert Ids(p.tasks) <= Elements(order) + left;
    if left != {} {
      var m := MinimalMember(p.dependencies, left);
      UnlistedHasUnlistedPredecessor(p, order, m);
    }
  }

  /** An unlisted task waits for an unlisted predecessor. */
  lemma UnlistedHasUnlistedPredecessor(p: PlanVersion, order: seq<Id>, m: Id)
    requires Resolvable(p) && KahnRun(p, order)
    requires m in Ids(p.tasks) && m !in order
    ensures exists u | u in Ids(p.tasks) && u !in order :: Reaches(p.dependencies, u, m)
  {
    var u :| Edge(p.dependencies, u, m) && u !in order;
    EdgeReaches(p.dependencies, u, m);
    assert u in Ids(p.tasks);
  }

  /** Two finished runs list the same tasks, however their queues were ordered. */
  lemma RunsListSameTasks(p: PlanVersion, a: seq<Id>, b: seq<Id>)
    requires KahnRun(p, a) && KahnRun(p, b)
    ensures Elements(a) == Elements(b) && |a| == |b|
  {
    RunContained(p, a, b, |a|);
    RunContained(p, b, a, |b|);
    assert a[..|a|] == a && b[..|b|] == b;
    DistinctBySize(a);
    DistinctBySize(b);
  }

  ghost predicate AllIn(a: seq<Id>, b: seq<Id>) {
    forall v | v in a :: v in b
  }

  lemma AllInOneMore(a: seq<Id>, k: nat, b: seq<Id>)
    requires k < |a| && AllIn(a[..k], b) && a[k] in b
    ensures AllIn(a[..k + 1], b)
  {
    TakeOneMore(a, k);
  }

  lemma NextIsContained(p: PlanVersion, a: seq<Id>, b: seq<Id>, k: nat)
    requires KahnRun(p, a) && KahnRun(p, b) && k < |a| && AllIn(a[..k], b)
    ensures a[k] in b
  {
    forall u | Edge(p.dependencies, u, a[k]) ensures u in b {
      assert u in a[..k];
    }
    assert a[k] in a;
  }

  lemma {:induction false} RunContained(p: PlanVersion, a: seq<Id>, b: seq<Id>, k: nat)
    requires KahnRun(p, a) && KahnRun(p, b)
    requires k <= |a|
    ensures AllIn(a[..k], b)
    decreases k
  {
    if k > 0 {
      RunContained(p, a, b, k - 1);
      NextIsContained(p, a, b, k - 1);
      AllInOneMore(a, k - 1, b);
    }
  }

  // ------------------------------------------- the first-in first-out discipline

  /** Position in `order` of the last listed predecessor of v, or -1. */
  ghost function LastPredecessor(deps: seq<Dependency>, order: seq<Id>, v: Id): int {
    if order == [] then -1
    else if Edge(deps, order[|order| - 1], v) then |order| - 1
    else LastPredecessor(deps, order[..|order| - 1], v)
  }

  /** Index of the last task with this id: what `{t.id: i for i, t in enumerate(tasks)}` stores. */
  function TaskIndex(tasks: seq<Task>, v: Id): int {
    if tasks == [] then -1
    else if tasks[|tasks| - 1].id == v then |tasks| - 1
    else TaskIndex(tasks[..|tasks| - 1], v)
  }

  /**
   * u was enqueued before v: its last predecessor was dequeued earlier, or at the same step
   * and u has the lower index.
   */
  ghost predicate EnqueuedBefore(p: PlanVersion, order: seq<Id>, u: Id, v: Id) {
    var lu, lv := LastPredecessor(p.dependencies, order, u), LastPredecessor(p.dependencies, order, v);
    lu < lv || (lu == lv && TaskIndex(p.tasks, u) < TaskIndex(p.tasks, v))
  }

  ghost predicate FirstInFirstOut(p: PlanVersion, order: seq<Id>, listed: seq<Id>) {
    forall i, j | 0 <= i < j < |listed| :: EnqueuedBefore(p, order, listed[i], listed[j])
  }

  lemma {:induction false} LastPredecessorIs(deps: seq<Dependency>, order: seq<Id>, v: Id)
    ensures var l := LastPredecessor(deps, order, v);
            && -1 <= l < |order| && (l >= 0 ==> Edge(deps, order[l], v))
            && forall a | l < a < |order| :: !Edge(deps, order[a], v)
  {
    if order != [] && !Edge(deps, order[|order| - 1], v) {
      LastPredecessorIs(deps, order[..|order| - 1], v);
      var l := LastPredecessor(deps, order[..|order| - 1], v);
      forall a | l < a < |order| ensures !Edge(deps, order[a], v) {
        assert a < |order| - 1 ==> order[..|order| - 1][a] == order[a];
      }
    }
  }

  lemma {:induction false} TaskIndexIsLast(tasks: seq<Task>, v: Id)
    ensures var n := TaskIndex(tasks, v);
            && -1 <= n < |tasks| && (n >= 0 ==> tasks[n].id == v)
            && forall k | n < k < |tasks| :: tasks[k].id != v
  {
    if tasks != [] && tasks[|tasks| - 1].id != v {
      TaskIndexIsLast(tasks[..|tasks| - 1], v);
      var n := TaskIndex(tasks[..|tasks| - 1], v);
      forall k | n < k < |tasks| ensures tasks[k].id != v {
        assert k < |tasks| - 1 ==> tasks[..|tasks| - 1][k] == tasks[k];
      }
    }
  }

  /** Some predecessor of v is dequeued after every predecessor of u. */
  ghost predicate FreedLater(deps: seq<Dependency>, order: seq<Id>, u: Id, v: Id) {
    exists b | 0 <= b < |order| && Edge(deps, order[b], v) ::
      forall a | 0 <= a < |order| && Edge(deps, order[a], u) :: a < b
  }

  /**
   * The queue discipline, said on edges and positions: of two listed tasks the second was freed later, or the first
   * was not freed later and stands earlier in the plan.
   */
  lemma QueueDiscipline(p: PlanVersion, order: seq<Id>, i: nat, j: nat)
    requires IsTopologicalOrder(p, order) && i < j < |order|
    ensures || FreedLater(p.dependencies, order, order[i], order[j])
            || (&& !FreedLater(p.dependencies, order, order[j], order[i])
                && exists y | 0 <= y < |p.tasks| && p.tasks[y].id == order[j] ::
                     forall x | 0 <= x < |p.tasks| && p.tasks[x].id == order[i] :: x < y)
  {
    var u, v := order[i], order[j];
    LastPredecessorIs(p.dependencies, order, u);
    LastPredecessorIs(p.dependencies, order, v);
    TaskIndexIsLast(p.tasks, u);
    TaskIndexIsLast(p.tasks, v);
    assert EnqueuedBefore(p, order, u, v);
    var lu, lv := LastPredecessor(p.dependencies, order, u), LastPredecessor(p.dependencies, order, v);
    if lu < lv {
      assert Edge(p.dependencies, order[lv], v);
    } else {
      var y := TaskIndex(p.tasks, v);
      assert p.tasks[y].id == v;
    }
  }

  /** What `_topological_order` returns, said without running it. */
  ghost predicate IsTopologicalOrder(p: PlanVersion, order: seq<Id>) {
    KahnRun(p, order) && FirstInFirstOut(p, order, order)
  }

  lemma {:induction false} LastPredecessorOfPrefix(deps: seq<Dependency>, order: seq<Id>, k: nat, v: Id)
    requires k <= |order|
    requires forall i | k <= i < |order| :: !Edge(deps, order[i], v)
    ensures LastPredecessor(deps, order, v) == LastPredecessor(deps, order[..k], v)
    decreases |order|
  {
    if k < |order| {
      var rest := order[..|order| - 1];
      LastPredecessorOfPrefix(deps, rest, k, v);
      assert rest[..k] == order[..k];
    } else {
      assert order[..k] == order;
    }
  }

  lemma {:induction false} LastPredecessorBounds(deps: seq<Dependency>, order: seq<Id>, v: Id)
    ensures -1 <= LastPredecessor(deps, order, v) < |order|
  {
    if order != [] {
      LastPredecessorBounds(deps, order[..|order| - 1], v);
    }
  }

  /** In a run, the last predecessor of any listed task is found in every prefix holding all its predecessors. */
  lemma LastPredecessorStable(p: PlanVersion, order: seq<Id>, k: nat, v: Id)
    requires KahnRun(p, order) && k <= |order|
    requires forall u | Edge(p.dependencies, u, v) :: u in order[..k]
    ensures LastPredecessor(p.dependencies, order, v) == LastPredecessor(p.dependencies, order[..k], v)
  {
    forall i | k <= i < |order| ensures !Edge(p.dependencies, order[i], v) {
      assert order[i] !in order[..k];
    }
    LastPredecessorOfPrefix(p.dependencies, order, k, v);
  }

  /** The order is determined by the plan: two calls always agree. */
  lemma TopologicalOrderUnique(p: PlanVersion, a: seq<Id>, b: seq<Id>)
    requires IsTopologicalOrder(p, a) && IsTopologicalOrder(p, b)
    ensures a == b
  {
    RunsListSameTasks(p, a, b);
    TopologicalPrefixUnique(p, a, b, |a|);
    assert a[..|a|] == a && b[..|b|] == b;
  }

  lemma {:induction false} TopologicalPrefixUnique(p: PlanVersion, a: seq<Id>, b: seq<Id>, k: nat)
    requires IsTopologicalOrder(p, a) && IsTopologicalOrder(p, b)
    requires Elements(a) == Elements(b) && |a| == |b| && k <= |a|
    ensures a[..k] == b[..k]
    decreases k
  {
    if k > 0 {
      var n := k - 1;
      TopologicalPrefixUnique(p, a, b, n);
      var u, v := a[n], b[n];
      if u != v {
        var i := LaterPosition(a, b, n);
        var j := LaterPosition(b, a, n);
        assert EnqueuedBefore(p, a, u, v) && EnqueuedBefore(p, b, v, u);
        LastPredecessorStable(p, a, n, u);
        LastPredecessorStable(p, b, n, u);
        LastPredecessorStable(p, a, n, v);
        LastPredecessorStable(p, b, n, v);
        assert false;
      }
      assert a[..k] == a[..n] + [u] && b[..k] == b[..n] + [v];
    }
  }

  lemma LaterPosition(a: seq<Id>, b: seq<Id>, n: nat) returns (i: nat)
    requires Distinct(a) && Distinct(b) && Elements(a) == Elements(b) && |a| == |b|
    requires n < |a| && a[..n] == b[..n] && a[n] != b[n]
    ensures n < i < |a| && a[i] == b[n]
  {
    assert b[n] in Elements(a);
    i :| 0 <= i < |a| && a[i] == b[n];
    assert b[n] !in b[..n];
  }
}
