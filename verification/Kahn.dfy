/** The two Kahn loops of the rollback synthesizer: the yes/no test and the sorted order. */
module Kahn {
  import opened Common
  import opened PlanGraph

  /** Hard edges into v whose source is not in `done`, counted with multiplicity. */
  ghost function Remaining(deps: seq<Dependency>, v: Id, done: set<Id>): nat {
    if deps == [] then 0
    else
      var d := deps[|deps| - 1];
      Remaining(deps[..|deps| - 1], v, done)
      + (if d.kind.Hard? && d.toTask == v && d.fromTask !in done then 1 else 0)
  }

  /** Targets of the hard edges out of u, in dependency order and with repetitions. */
  ghost function Targets(deps: seq<Dependency>, u: Id): seq<Id> {
    if deps == [] then []
    else
      var d := deps[|deps| - 1];
      Targets(deps[..|deps| - 1], u) + (if d.kind.Hard? && d.fromTask == u then [d.toTask] else [])
  }

  lemma {:induction false} RemainingZero(deps: seq<Dependency>, v: Id, done: set<Id>)
    ensures Remaining(deps, v, done) == 0 <==> forall u | Edge(deps, u, v) :: u in done
  {
    if deps != [] {
      var d, rest := deps[|deps| - 1], deps[..|deps| - 1];
      RemainingZero(rest, v, done);
      assert deps == rest + [d];
      assert forall u | Edge(rest, u, v) :: Edge(deps, u, v);
      assert forall u | Edge(deps, u, v) :: Edge(rest, u, v) || (d.kind.Hard? && d.fromTask == u && d.toTask == v);
      if d.kind.Hard? && d.toTask == v {
        assert Edge(deps, d.fromTask, v);
      }
    }
  }

  /** Processing u removes exactly its edges from every count. */
  lemma {:induction false} RemainingAfter(deps: seq<Dependency>, v: Id, done: set<Id>, u: Id)
    requires u !in done
    ensures Remaining(deps, v, done + {u}) + multiset(Targets(deps, u))[v] == Remaining(deps, v, done)
  {
    if deps != [] {
      RemainingAfter(deps[..|deps| - 1], v, done, u);
    }
  }

  lemma {:induction false} TargetsAreEdges(deps: seq<Dependency>, u: Id, v: Id)
    ensures v in Targets(deps, u) <==> Edge(deps, u, v)
  {
    if deps != [] {
      var d, rest := deps[|deps| - 1], deps[..|deps| - 1];
      TargetsAreEdges(rest, u, v);
      assert deps == rest + [d];
      assert Edge(deps, u, v) <==> Edge(rest, u, v) || (d.kind.Hard? && d.fromTask == u && d.toTask == v);
    }
  }

  lemma AddTask(tasks: seq<Task>, i: nat)
    requires i < |tasks|
    ensures Ids(tasks[..i + 1]) == Ids(tasks[..i]) + {tasks[i].id}
  {
    assert tasks[..i + 1][..i] == tasks[..i];
    IdsOneMore(tasks[..i + 1]);
  }

  lemma AddKey(keys: seq<Id>, id: Id)
    requires Distinct(keys) && id !in Elements(keys)
    ensures Distinct(keys + [id]) && Elements(keys + [id]) == Elements(keys) + {id}
  {
    forall i | 0 <= i < |keys| ensures keys[i] != id {
      assert keys[i] in Elements(keys);
    }
  }

  lemma AddEdge(deps: seq<Dependency>, i: nat, u: Id)
    requires i < |deps|
    ensures var d := deps[i];
            && Targets(deps[..i + 1], u)
               == Targets(deps[..i], u) + (if d.kind.Hard? && d.fromTask == u then [d.toTask] else [])
            && Remaining(deps[..i + 1], u, {})
               == Remaining(deps[..i], u, {}) + if d.kind.Hard? && d.toTask == u then 1 else 0
  {
    assert deps[..i + 1][..i] == deps[..i];
  }

  /** The task loop: empty adjacency, zero in-degree, and the insertion order of the keys. */
  method InitialGraph(tasks: seq<Task>) returns (adjacency: map<Id, seq<Id>>, inDegree: map<Id, nat>, keys: seq<Id>)
    ensures adjacency.Keys == inDegree.Keys == Ids(tasks) == Elements(keys)
    ensures Distinct(keys)
    ensures forall u | u in adjacency :: adjacency[u] == []
    ensures forall v | v in inDegree :: inDegree[v] == 0
  {
    adjacency, inDegree, keys := map[], map[], [];
    for i := 0 to |tasks|
      invariant adjacency.Keys == inDegree.Keys == Ids(tasks[..i]) == Elements(keys)
      invariant Distinct(keys)
      invariant forall u | u in adjacency :: adjacency[u] == []
      invariant forall v | v in inDegree :: inDegree[v] == 0
    {
      var id := tasks[i].id;
      AddTask(tasks, i);
      if id !in inDegree {
        AddKey(keys, id);
        keys := keys + [id];
      }
      adjacency := adjacency[id := []];
      inDegree := inDegree[id := 0];
    }
    assert tasks[..|tasks|] == tasks;
  }

  ghost predicate GraphOf(deps: seq<Dependency>, ids: set<Id>, adjacency: map<Id, seq<Id>>, inDegree: map<Id, nat>) {
    && adjacency.Keys == inDegree.Keys == ids
    && (forall u | u in ids :: adjacency[u] == Targets(deps, u))
    && (forall v | v in ids :: inDegree[v] == Remaining(deps, v, {}))
  }

  lemma GraphStep(deps: seq<Dependency>, i: nat, ids: set<Id>, adjacency: map<Id, seq<Id>>, inDegree: map<Id, nat>)
    requires i < |deps| && GraphOf(deps[..i], ids, adjacency, inDegree)
    requires deps[i].kind.Hard? ==> deps[i].fromTask in ids && deps[i].toTask in ids
    ensures var d := deps[i];
            if d.kind.Hard?
            then GraphOf(deps[..i + 1], ids, adjacency[d.fromTask := adjacency[d.fromTask] + [d.toTask]],
                         inDegree[d.toTask := inDegree[d.toTask] + 1])
            else GraphOf(deps[..i + 1], ids, adjacency, inDegree)
  {
    forall u | u in ids
      ensures Targets(deps[..i + 1], u) == Targets(deps[..i], u) +
                if deps[i].kind.Hard? && deps[i].fromTask == u then [deps[i].toTask] else []
      ensures Remaining(deps[..i + 1], u, {}) == Remaining(deps[..i], u, {}) +
                if deps[i].kind.Hard? && deps[i].toTask == u then 1 else 0
    {
      AddEdge(deps, i, u);
    }
  }

  /** The `adjacency` and `in_degree` dictionaries, and the insertion order of their keys. */
  method BuildGraph(p: PlanVersion) returns (adjacency: map<Id, seq<Id>>, inDegree: map<Id, nat>, keys: seq<Id>)
    requires Resolvable(p)
    ensures GraphOf(p.dependencies, Ids(p.tasks), adjacency, inDegree)
    ensures Distinct(keys) && Elements(keys) == Ids(p.tasks)
  {
    adjacency, inDegree, keys := InitialGraph(p.tasks);
    var deps := p.dependencies;
    for i := 0 to |deps|
      invariant GraphOf(deps[..i], Ids(p.tasks), adjacency, inDegree)
    {
      var d := deps[i];
      assert d in deps;
      GraphStep(deps, i, Ids(p.tasks), adjacency, inDegree);
      if d.kind.Hard? {
        adjacency := adjacency[d.fromTask := adjacency[d.fromTask] + [d.toTask]];
        inDegree := inDegree[d.toTask := inDegree[d.toTask] + 1];
      }
    }
    assert deps[..|deps|] == deps;
  }

  /** The `by_index` dictionary. */
  method IndexTasks(tasks: seq<Task>) returns (byIndex: map<Id, int>)
    ensures byIndex.Keys == Ids(tasks)
    ensures forall v | v in byIndex :: byIndex[v] == TaskIndex(tasks, v)
  {
    byIndex := map[];
    for i := 0 to |tasks|
      invariant byIndex.Keys == Ids(tasks[..i])
      invariant forall v | v in byIndex :: byIndex[v] == TaskIndex(tasks[..i], v)
    {
      assert tasks[..i + 1] == tasks[..i] + [tasks[i]];
      assert tasks[..i + 1][..i] == tasks[..i];
      byIndex := byIndex[tasks[i].id := i];
    }
    assert tasks[..|tasks|] == tasks;
  }

  function KeyOf(key: map<Id, int>, v: Id): int {
    if v in key then key[v] else -1
  }

  ghost predicate Bounded(key: map<Id, int>, s: seq<Id>, x: Id) {
    forall v | v in s :: KeyOf(key, v) <= KeyOf(key, x)
  }

  /** Every element's key bounds the keys before it. */
  ghost predicate SortedBy(key: map<Id, int>, s: seq<Id>) {
    s != [] ==> SortedBy(key, s[..|s| - 1]) && Bounded(key, s[..|s| - 1], s[|s| - 1])
  }

  ghost predicate StrictlySorted(tasks: seq<Task>, s: seq<Id>) {
    forall i, j | 0 <= i < j < |s| :: TaskIndex(tasks, s[i]) < TaskIndex(tasks, s[j])
  }

  /** Insert x after the elements whose key is not greater. */
  function InsertByKey(key: map<Id, int>, r: seq<Id>, x: Id): (r': seq<Id>)
    ensures multiset(r') == multiset(r) + multiset{x}
  {
    if r == [] then [x]
    else
      var last := |r| - 1;
      assert r == r[..last] + [r[last]];
      if KeyOf(key, r[last]) <= KeyOf(key, x) then r + [x]
      else InsertByKey(key, r[..last], x) + [r[last]]
  }

  lemma SortedSnoc(key: map<Id, int>, s: seq<Id>, x: Id)
    requires SortedBy(key, s) && Bounded(key, s, x)
    ensures SortedBy(key, s + [x])
  {
    assert (s + [x])[..|s|] == s;
  }

  lemma BoundedBeyond(key: map<Id, int>, r: seq<Id>, x: Id)
    requires r != [] && SortedBy(key, r) && KeyOf(key, r[|r| - 1]) <= KeyOf(key, x)
    ensures Bounded(key, r, x)
  {
    assert r == r[..|r| - 1] + [r[|r| - 1]];
  }

  lemma BoundedInsert(key: map<Id, int>, s: seq<Id>, x: Id, top: Id)
    requires Bounded(key, s, top) && KeyOf(key, x) <= KeyOf(key, top)
    ensures Bounded(key, InsertByKey(key, s, x), top)
  {
    forall v | v in InsertByKey(key, s, x) ensures KeyOf(key, v) <= KeyOf(key, top) {
      assert v in multiset(InsertByKey(key, s, x));
      assert v == x || v in s;
    }
  }

  lemma {:induction false} InsertKeepsSorted(key: map<Id, int>, r: seq<Id>, x: Id)
    requires SortedBy(key, r)
    ensures SortedBy(key, InsertByKey(key, r, x))
  {
    if r == [] {
      SortedSnoc(key, [], x);
      assert [] + [x] == [x];
    } else if KeyOf(key, r[|r| - 1]) <= KeyOf(key, x) {
      BoundedBeyond(key, r, x);
      SortedSnoc(key, r, x);
    } else {
      var front, top := r[..|r| - 1], r[|r| - 1];
      InsertKeepsSorted(key, front, x);
      BoundedInsert(key, front, x, top);
      SortedSnoc(key, InsertByKey(key, front, x), top);
    }
  }

  /** Python's `sorted(ids, key=by_index)`, which is stable. */
  function SortByKey(key: map<Id, int>, ids: seq<Id>): (r: seq<Id>)
    ensures multiset(r) == multiset(ids)
    ensures SortedBy(key, r)
  {
    if ids == [] then []
    else
      var last := |ids| - 1;
      assert ids == ids[..last] + [ids[last]];
      InsertKeepsSorted(key, SortByKey(key, ids[..last]), ids[last]);
      InsertByKey(key, SortByKey(key, ids[..last]), ids[last])
  }

  lemma {:induction false} SortedPairwise(key: map<Id, int>, s: seq<Id>, i: nat, j: nat)
    requires SortedBy(key, s) && i < j < |s|
    ensures KeyOf(key, s[i]) <= KeyOf(key, s[j])
    decreases |s|
  {
    if j < |s| - 1 {
      SortedPairwise(key, s[..|s| - 1], i, j);
    } else {
      assert s[i] in s[..j];
    }
  }

  lemma {:induction false} SortedPrefix(key: map<Id, int>, s: seq<Id>, i: nat)
    requires SortedBy(key, s) && i < |s|
    ensures Bounded(key, s[..i], s[i])
    decreases |s|
  {
    if i < |s| - 1 {
      var front := s[..|s| - 1];
      SortedPrefix(key, front, i);
      assert front[..i] == s[..i];
    }
  }

  lemma {:induction false} TaskIndexFinds(tasks: seq<Task>, v: Id)
    requires v in Ids(tasks)
    ensures 0 <= TaskIndex(tasks, v) < |tasks| && tasks[TaskIndex(tasks, v)].id == v
  {
    var last := |tasks| - 1;
    if tasks[last].id != v {
      assert tasks == tasks[..last] + [tasks[last]];
      TaskIndexFinds(tasks[..last], v);
    }
  }

  /** State of the neighbour loop after the decrements for `seen`. */
  ghost predicate Decremented(inDegree: map<Id, nat>, seen: seq<Id>, inDegree': map<Id, nat>, added: seq<Id>) {
    && inDegree'.Keys == inDegree.Keys
    && (forall v | v in inDegree :: inDegree'[v] + multiset(seen)[v] == inDegree[v])
    && Distinct(added)
    && (forall v :: v in added <==> v in inDegree && v in seen && inDegree'[v] == 0)
  }

  lemma DecrementStep(inDegree: map<Id, nat>, neighbours: seq<Id>, i: nat, inDegree': map<Id, nat>, added: seq<Id>)
    requires i < |neighbours|
    requires neighbours[i] in inDegree && multiset(neighbours)[neighbours[i]] <= inDegree[neighbours[i]]
    requires Decremented(inDegree, neighbours[..i], inDegree', added)
    ensures inDegree'[neighbours[i]] > 0
    ensures var n := neighbours[i];
            Decremented(inDegree, neighbours[..i + 1], inDegree'[n := inDegree'[n] - 1],
                        if inDegree'[n] == 1 then added + [n] else added)
  {
    var n := neighbours[i];
    CountsLeave(neighbours, i);
    assert neighbours[..i + 1] == neighbours[..i] + [n];
    assert n !in added;
    var after := inDegree'[n := inDegree'[n] - 1];
    forall v | v in inDegree ensures after[v] + multiset(neighbours[..i + 1])[v] == inDegree[v] {
      assert inDegree'[v] + multiset(neighbours[..i])[v] == inDegree[v];
    }
  }

  /** The first i neighbours are done; sorted neighbours are enqueued sorted. */
  ghost predicate Relaxing(
      key: map<Id, int>, inDegree: map<Id, nat>, neighbours: seq<Id>, i: nat, inDegree': map<Id, nat>, added: seq<Id>)
  {
    && i <= |neighbours| && Decremented(inDegree, neighbours[..i], inDegree', added)
    && (SortedBy(key, neighbours) ==> SortedBy(key, added))
  }

  lemma RelaxStep(
      key: map<Id, int>, inDegree: map<Id, nat>, neighbours: seq<Id>, i: nat, inDegree': map<Id, nat>, added: seq<Id>)
    requires i < |neighbours| && Relaxing(key, inDegree, neighbours, i, inDegree', added)
    requires neighbours[i] in inDegree && multiset(neighbours)[neighbours[i]] <= inDegree[neighbours[i]]
    ensures neighbours[i] in inDegree' && inDegree'[neighbours[i]] > 0
    ensures var n := neighbours[i];
            Relaxing(key, inDegree, neighbours, i + 1, inDegree'[n := inDegree'[n] - 1],
                     if inDegree'[n] == 1 then added + [n] else added)
  {
    DecrementStep(inDegree, neighbours, i, inDegree', added);
    SortedAppend(key, neighbours, i, added);
  }

  /** Decrement the in-degree of every neighbour, enqueuing each one that drops to zero. */
  method Relax(ghost key: map<Id, int>, inDegree: map<Id, nat>, queue: seq<Id>, neighbours: seq<Id>)
    returns (inDegree': map<Id, nat>, queue': seq<Id>, ghost added: seq<Id>)
    requires forall v | v in neighbours :: v in inDegree && multiset(neighbours)[v] <= inDegree[v]
    ensures Decremented(inDegree, neighbours, inDegree', added)
    ensures queue' == queue + added
    ensures SortedBy(key, neighbours) ==> SortedBy(key, added)
  {
    inDegree', queue', added := inDegree, queue, [];
    for i := 0 to |neighbours|
      invariant Relaxing(key, inDegree, neighbours, i, inDegree', added)
      invariant queue' == queue + added
    {
      var n := neighbours[i];
      assert n in neighbours;
      RelaxStep(key, inDegree, neighbours, i, inDegree', added);
      inDegree' := inDegree'[n := inDegree'[n] - 1];
      if inDegree'[n] == 0 {
        Regroup(queue, added, [n]);
        queue' := queue' + [n];
        added := added + [n];
      }
    }
    assert neighbours[..|neighbours|] == neighbours;
  }

  lemma MoveHead<T>(a: seq<T>, q: seq<T>, b: seq<T>)
    requires q != []
    ensures a + [q[0]] + (q[1..] + b) == a + q + b
  {
  }

  lemma SortedAppend(key: map<Id, int>, neighbours: seq<Id>, i: nat, added: seq<Id>)
    requires i < |neighbours|
    requires forall v | v in added :: v in neighbours[..i]
    ensures SortedBy(key, neighbours) && SortedBy(key, added) ==> SortedBy(key, added + [neighbours[i]])
  {
    if SortedBy(key, neighbours) && SortedBy(key, added) {
      SortedPrefix(key, neighbours, i);
      assert (added + [neighbours[i]])[..|added|] == added;
    }
  }

  lemma CountsLeave<T>(s: seq<T>, i: nat)
    requires i < |s|
    ensures multiset(s[..i])[s[i]] + 1 <= multiset(s)[s[i]]
  {
    assert s == s[..i] + [s[i]] + s[i + 1..];
  }

  /** What both loops keep: counts are exact, and the zero counts are the tasks ever enqueued. */
  ghost predicate Progress(p: PlanVersion, inDegree: map<Id, nat>, order: seq<Id>, queue: seq<Id>) {
    && inDegree.Keys == Ids(p.tasks)
    && Distinct(order + queue)
    && (forall v | v in inDegree :: inDegree[v] == Remaining(p.dependencies, v, Elements(order)))
    && (forall v :: v in order + queue <==> v in inDegree && inDegree[v] == 0)
    && PredecessorsFirst(p.dependencies, order)
  }

  lemma InitialProgress(p: PlanVersion, inDegree: map<Id, nat>, queue: seq<Id>)
    requires inDegree.Keys == Ids(p.tasks)
    requires forall v | v in inDegree :: inDegree[v] == Remaining(p.dependencies, v, {})
    requires Distinct(queue) && forall v :: v in queue <==> v in inDegree && inDegree[v] == 0
    ensures Progress(p, inDegree, [], queue)
  {
    assert [] + queue == queue;
    assert Elements<Id>([]) == {};
  }

  /** A dequeued task has no unprocessed predecessor, so its neighbours' counts cover its edges. */
  lemma DequeueIsSafe(p: PlanVersion, inDegree: map<Id, nat>, order: seq<Id>, queue: seq<Id>)
    requires Resolvable(p) && Progress(p, inDegree, order, queue) && queue != []
    ensures queue[0] in inDegree && queue[0] !in order
    ensures forall u | Edge(p.dependencies, u, queue[0]) :: u in order
    ensures forall v | v in Targets(p.dependencies, queue[0]) ::
              v in inDegree && multiset(Targets(p.dependencies, queue[0]))[v] <= inDegree[v]
  {
    var n := queue[0];
    assert (order + queue)[|order|] == n;
    assert n in order + queue;
    assert forall i | 0 <= i < |order| :: (order + queue)[i] == order[i];
    RemainingZero(p.dependencies, n, Elements(order));
    forall v | v in Targets(p.dependencies, n)
      ensures v in inDegree && multiset(Targets(p.dependencies, n))[v] <= inDegree[v]
    {
      TargetsAreEdges(p.dependencies, n, v);
      assert v in Ids(p.tasks);
      RemainingAfter(p.dependencies, v, Elements(order), n);
    }
  }

  /** The counts after dequeuing the head and relaxing its neighbours. */
  ghost predicate Relaxed(
      p: PlanVersion, inDegree: map<Id, nat>, queue: seq<Id>, neighbours: seq<Id>,
      inDegree': map<Id, nat>, added: seq<Id>)
  {
    && queue != []
    && multiset(neighbours) == multiset(Targets(p.dependencies, queue[0]))
    && Decremented(inDegree, neighbours, inDegree', added)
  }

  lemma NeighboursAreSuccessors(deps: seq<Dependency>, n: Id, neighbours: seq<Id>, v: Id)
    requires multiset(neighbours) == multiset(Targets(deps, n))
    ensures v in neighbours <==> Edge(deps, n, v)
    ensures v in neighbours <==> multiset(neighbours)[v] > 0
  {
    TargetsAreEdges(deps, n, v);
    assert v in Targets(deps, n) <==> multiset(Targets(deps, n))[v] > 0;
  }

  /** Nothing already enqueued is a successor of the head; everything newly enqueued is. */
  lemma DequeueSeparates(
      p: PlanVersion, inDegree: map<Id, nat>, order: seq<Id>, queue: seq<Id>, neighbours: seq<Id>,
      inDegree': map<Id, nat>, added: seq<Id>)
    requires Resolvable(p) && Progress(p, inDegree, order, queue)
    requires Relaxed(p, inDegree, queue, neighbours, inDegree', added)
    ensures forall v | v in added :: Edge(p.dependencies, queue[0], v)
    ensures forall v | v in order + queue :: !Edge(p.dependencies, queue[0], v)
    ensures forall v :: v in order + queue + added <==> v in inDegree' && inDegree'[v] == 0
    ensures Distinct(order + queue + added)
  {
    DequeueIsSafe(p, inDegree, order, queue);
    forall v
      ensures v in neighbours <==> Edge(p.dependencies, queue[0], v)
      ensures v in neighbours <==> multiset(neighbours)[v] > 0
    {
      NeighboursAreSuccessors(p.dependencies, queue[0], neighbours, v);
    }
    forall v | v in order + queue
      ensures !Edge(p.dependencies, queue[0], v)
    {
      RemainingZero(p.dependencies, v, Elements(order));
    }
    DistinctConcat(order + queue, added);
  }

  lemma DistinctConcat<T>(a: seq<T>, b: seq<T>)
    requires Distinct(a) && Distinct(b)
    requires forall x | x in b :: x !in a
    ensures Distinct(a + b)
  {
    forall i, j | 0 <= i < j < |a + b| ensures (a + b)[i] != (a + b)[j] {
      if i < |a| <= j {
        assert (a + b)[j] in b;
      }
    }
  }

  lemma DequeueKeepsProgress(
      p: PlanVersion, inDegree: map<Id, nat>, order: seq<Id>, queue: seq<Id>, neighbours: seq<Id>,
      inDegree': map<Id, nat>, added: seq<Id>)
    requires Resolvable(p) && Progress(p, inDegree, order, queue)
    requires Relaxed(p, inDegree, queue, neighbours, inDegree', added)
    ensures Progress(p, inDegree', order + [queue[0]], queue[1..] + added)
  {
    var n, deps := queue[0], p.dependencies;
    DequeueIsSafe(p, inDegree, order, queue);
    DequeueSeparates(p, inDegree, order, queue, neighbours, inDegree', added);
    var order' := order + [n];
    MoveHead(order, queue, added);
    CountsAfter(p, inDegree, order, queue, neighbours, inDegree', added);
    PredecessorsFirstExtend(deps, order, n);
  }

  lemma CountsAfter(
      p: PlanVersion, inDegree: map<Id, nat>, order: seq<Id>, queue: seq<Id>, neighbours: seq<Id>,
      inDegree': map<Id, nat>, added: seq<Id>)
    requires Relaxed(p, inDegree, queue, neighbours, inDegree', added) && queue[0] !in order
    requires forall v | v in inDegree :: inDegree[v] == Remaining(p.dependencies, v, Elements(order))
    ensures forall v | v in inDegree' :: inDegree'[v] == Remaining(p.dependencies, v, Elements(order + [queue[0]]))
  {
    var n := queue[0];
    assert Elements(order + [n]) == Elements(order) + {n};
    forall v | v in inDegree'
      ensures inDegree'[v] == Remaining(p.dependencies, v, Elements(order + [n]))
    {
      RemainingAfter(p.dependencies, v, Elements(order), n);
    }
  }

  lemma PredecessorsFirstExtend(deps: seq<Dependency>, order: seq<Id>, n: Id)
    requires PredecessorsFirst(deps, order)
    requires forall u | Edge(deps, u, n) :: u in order
    ensures PredecessorsFirst(deps, order + [n])
  {
    forall i, u | 0 <= i < |order + [n]| && Edge(deps, u, (order + [n])[i])
      ensures u in (order + [n])[..i]
    {
      assert (order + [n])[..i] == order[..i];
    }
  }

  /** An empty queue means the run is finished. */
  lemma FinishedRun(p: PlanVersion, inDegree: map<Id, nat>, order: seq<Id>)
    requires Progress(p, inDegree, order, [])
    ensures KahnRun(p, order)
  {
    assert order + [] == order;
    forall v | v in Ids(p.tasks) && (forall u | Edge(p.dependencies, u, v) :: u in order)
      ensures v in order
    {
      RemainingZero(p.dependencies, v, Elements(order));
    }
  }

  lemma OrderFits(p: PlanVersion, inDegree: map<Id, nat>, order: seq<Id>, queue: seq<Id>)
    requires Progress(p, inDegree, order, queue)
    ensures |order| + |queue| <= |Ids(p.tasks)|
  {
    DistinctBySize(order + queue);
    assert Elements(order + queue) <= Ids(p.tasks);
    SubsetSize(Elements(order + queue), Ids(p.tasks));
  }

  /** The queue's first content: the keys whose in-degree is zero, in key order. */
  method ZeroKeys(inDegree: map<Id, nat>, keys: seq<Id>) returns (queue: seq<Id>)
    requires Distinct(keys) && Elements(keys) == inDegree.Keys
    ensures Distinct(queue)
    ensures forall v :: v in queue <==> v in inDegree && inDegree[v] == 0
  {
    queue := [];
    for i := 0 to |keys|
      invariant Distinct(queue)
      invariant forall v :: v in queue <==> v in keys[..i] && v in inDegree && inDegree[v] == 0
    {
      assert keys[i] in Elements(keys);
      assert keys[i] !in keys[..i];
      if inDegree[keys[i]] == 0 {
        queue := queue + [keys[i]];
      }
    }
    assert keys[..|keys|] == keys;
    assert forall v :: v in keys <==> v in Elements(keys);
  }

  /** True exactly when the task ids are distinct and no task reaches itself along hard edges. */
  method RollbackDagValid(p: PlanVersion) returns (valid: bool)
    requires Resolvable(p)
    ensures valid <==> DistinctIds(p.tasks) && Acyclic(p.dependencies)
    ensures forall order | KahnRun(p, order) :: valid <==> |order| == |p.tasks|
  {
    var adjacency, inDegree, keys := BuildGraph(p);
    var queue := ZeroKeys(inDegree, keys);
    var processed := 0;
    ghost var zeroKey := map v | v in inDegree :: 0;
    ghost var order := [];
    InitialProgress(p, inDegree, queue);
    while queue != []
      invariant Progress(p, inDegree, order, queue)
      invariant processed == |order|
      invariant zeroKey.Keys == inDegree.Keys
      decreases |Ids(p.tasks)| - |order|
    {
      DequeueIsSafe(p, inDegree, order, queue);
      var node := queue[0];
      ghost var before, waiting := inDegree, queue;
      ghost var added;
      inDegree, queue, added := Relax(zeroKey, inDegree, queue[1..], adjacency[node]);
      processed := processed + 1;
      DequeueKeepsProgress(p, before, order, waiting, adjacency[node], inDegree, added);
      order := order + [node];
      OrderFits(p, inDegree, order, queue);
    }
    FinishedRun(p, inDegree, order);
    CompleteRunMeansDag(p, order);
    forall other | KahnRun(p, other) ensures |other| == |order| {
      RunsListSameTasks(p, order, other);
    }
    return processed == |p.tasks|;
  }

  lemma CompleteRunMeansDag(p: PlanVersion, order: seq<Id>)
    requires Resolvable(p) && KahnRun(p, order)
    ensures |order| == |p.tasks| <==> DistinctIds(p.tasks) && Acyclic(p.dependencies)
  {
    RunCompleteIffAcyclic(p, order);
    DistinctIdsBySize(p.tasks);
    DistinctBySize(order);
    assert Elements(order) <= Ids(p.tasks);
    SubsetSize(Elements(order), Ids(p.tasks));
    if |order| == |p.tasks| {
      SameSizeSubset(Elements(order), Ids(p.tasks));
    }
  }

  lemma {:induction false} SameSizeSubset<T>(a: set<T>, b: set<T>)
    requires a <= b && |a| == |b|
    ensures a == b
    decreases a
  {
    if a != {} {
      var x :| x in a;
      SameSizeSubset(a - {x}, b - {x});
      assert a == (a - {x}) + {x} && b == (b - {x}) + {x};
    }
  }

  lemma StrictFromDistinct(tasks: seq<Task>, key: map<Id, int>, s: seq<Id>)
    requires SortedBy(key, s) && Distinct(s)
    requires key.Keys == Ids(tasks) && forall v | v in s :: v in key
    requires forall v | v in key :: key[v] == TaskIndex(tasks, v)
    ensures StrictlySorted(tasks, s)
  {
    forall i, j | 0 <= i < j < |s|
      ensures TaskIndex(tasks, s[i]) < TaskIndex(tasks, s[j])
    {
      SortedPairwise(key, s, i, j);
      TaskIndexFinds(tasks, s[i]);
      TaskIndexFinds(tasks, s[j]);
    }
  }

  /** Appending a task to the dequeued order moves only its successors' last predecessor. */
  lemma DequeueKeepsDiscipline(p: PlanVersion, order: seq<Id>, n: Id, listed: seq<Id>, added: seq<Id>)
    requires FirstInFirstOut(p, order, listed)
    requires forall v | v in listed :: !Edge(p.dependencies, n, v)
    requires forall v | v in added :: Edge(p.dependencies, n, v)
    requires StrictlySorted(p.tasks, added)
    ensures FirstInFirstOut(p, order + [n], listed + added)
  {
    var order', all := order + [n], listed + added;
    assert order'[..|order|] == order;
    forall v | v in listed
      ensures LastPredecessor(p.dependencies, order', v) == LastPredecessor(p.dependencies, order, v) < |order|
    {
      LastPredecessorBounds(p.dependencies, order, v);
    }
    forall i, j | 0 <= i < j < |all|
      ensures EnqueuedBefore(p, order', all[i], all[j])
    {
      if j < |listed| {
        assert EnqueuedBefore(p, order, listed[i], listed[j]);
      } else {
        assert all[j] in added;
        assert i < |listed| ==> all[i] in listed;
        assert i >= |listed| ==> all[i] in added;
      }
    }
  }

  /** One dequeue of the sorted loop keeps both halves of its invariant. */
  lemma SortedStep(
      p: PlanVersion, key: map<Id, int>, inDegree: map<Id, nat>, order: seq<Id>, queue: seq<Id>, neighbours: seq<Id>,
      inDegree': map<Id, nat>, added: seq<Id>)
    requires Resolvable(p) && Progress(p, inDegree, order, queue)
    requires FirstInFirstOut(p, order, order + queue)
    requires Relaxed(p, inDegree, queue, neighbours, inDegree', added)
    requires key.Keys == Ids(p.tasks) && forall v | v in key :: key[v] == TaskIndex(p.tasks, v)
    requires SortedBy(key, added)
    ensures Progress(p, inDegree', order + [queue[0]], queue[1..] + added)
    ensures FirstInFirstOut(p, order + [queue[0]], order + [queue[0]] + (queue[1..] + added))
  {
    DequeueKeepsProgress(p, inDegree, order, queue, neighbours, inDegree', added);
    DequeueSeparates(p, inDegree, order, queue, neighbours, inDegree', added);
    StrictFromDistinct(p.tasks, key, added);
    DequeueKeepsDiscipline(p, order, queue[0], order + queue, added);
    MoveHead(order, queue, added);
  }

  /** The stable order: a finished run in first-in first-out discipline with index tie-breaks. */
  method TopologicalOrder(p: PlanVersion) returns (order: seq<Id>)
    requires Resolvable(p)
    ensures IsTopologicalOrder(p, order)
  {
    var adjacency, inDegree, keys := BuildGraph(p);
    var byIndex := IndexTasks(p.tasks);
    var zeros := ZeroKeys(inDegree, keys);
    var queue := SortByKey(byIndex, zeros);
    order := [];
    SortedStart(p, byIndex, inDegree, zeros, queue);
    while queue != []
      invariant Progress(p, inDegree, order, queue)
      invariant FirstInFirstOut(p, order, order + queue)
      decreases |Ids(p.tasks)| - |order|
    {
      DequeueIsSafe(p, inDegree, order, queue);
      var node := queue[0];
      var neighbours := SortByKey(byIndex, adjacency[node]);
      assert forall v :: v in neighbours <==> v in multiset(adjacency[node]);
      ghost var before, waiting := inDegree, queue;
      ghost var added;
      inDegree, queue, added := Relax(byIndex, inDegree, queue[1..], neighbours);
      SortedStep(p, byIndex, before, order, waiting, neighbours, inDegree, added);
      order := order + [node];
      OrderFits(p, inDegree, order, queue);
    }
    FinishedRun(p, inDegree, order);
    assert order + queue == order;
  }

  lemma SortedStart(p: PlanVersion, key: map<Id, int>, inDegree: map<Id, nat>, zeros: seq<Id>, queue: seq<Id>)
    requires inDegree.Keys == Ids(p.tasks)
    requires forall v | v in inDegree :: inDegree[v] == Remaining(p.dependencies, v, {})
    requires Distinct(zeros) && forall v :: v in zeros <==> v in inDegree && inDegree[v] == 0
    requires key.Keys == Ids(p.tasks) && forall v | v in key :: key[v] == TaskIndex(p.tasks, v)
    requires multiset(queue) == multiset(zeros) && SortedBy(key, queue)
    ensures Progress(p, inDegree, [], queue)
    ensures FirstInFirstOut(p, [], [] + queue)
  {
    PermutationDistinct(zeros, queue);
    InitialProgress(p, inDegree, queue);
    StrictFromDistinct(p.tasks, key, queue);
    assert [] + queue == queue;
  }

  lemma PermutationDistinct<T>(a: seq<T>, b: seq<T>)
    requires multiset(a) == multiset(b) && Distinct(a)
    ensures Distinct(b)
    ensures forall v :: v in b <==> v in a
  {
    assert forall v :: v in a <==> v in multiset(a);
    assert forall v :: v in b <==> v in multiset(b);
    DistinctMultiset(a);
    forall i, j | 0 <= i < j < |b| ensures b[i] != b[j] {
      CountsLeave(b, j);
      assert b[i] in multiset(b[..j]);
    }
  }

  lemma {:induction false} DistinctMultiset<T>(s: seq<T>)
    requires Distinct(s)
    ensures forall x :: multiset(s)[x] <= 1
  {
    if s != [] {
      var last := |s| - 1;
      DistinctMultiset(s[..last]);
      assert s == s[..last] + [s[last]];
      assert s[last] !in s[..last];
    }
  }
}
