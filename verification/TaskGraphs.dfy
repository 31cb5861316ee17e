// TaskNode and TaskGraph (src/cadgenesis/agents/scheduling.py): Kahn's cycle
// test, the deterministic topological order and the critical path.
module TaskGraphs {
  import opened Results
  import opened Seqs
  import opened Graphs
  import opened Kahn
  import opened LongestChains

  datatype Status = Pending | Ready | Running | Completed | Failed | Skipped

  class TaskNode {
    const taskId: Id
    const priority: int
    const deadline: Option<real>
    const retries: int
    const cost: real
    var dependsOn: seq<Id>
    var status: Status
    var attempts: int
    var error: string

    constructor (taskId: Id, priority: int, dependsOn: seq<Id>, deadline: Option<real>, retries: int, cost: real)
      ensures this.taskId == taskId && this.priority == priority && this.dependsOn == dependsOn
      ensures this.deadline == deadline && this.retries == retries && this.cost == cost
      ensures status == Pending && attempts == 0 && error == ""
    {
      this.taskId, this.priority, this.dependsOn := taskId, priority, dependsOn;
      this.deadline, this.retries, this.cost := deadline, retries, cost;
      status, attempts, error := Pending, 0, "";
    }
  }

  // What a run changes in a node.
  datatype RunState = RunState(status: Status, attempts: int, error: string)

  predicate DepsCompleted(g: Graph, st: map<Id, RunState>, n: Id)
    requires n in g
  {
    forall d :: d in g[n] ==> d in st && st[d].status == Completed
  }

  predicate IsReady(g: Graph, st: map<Id, RunState>, n: Id) {
    n in g && n in st && st[n].status == Pending && DepsCompleted(g, st, n)
  }

  datatype GraphError = DuplicateTask(id: Id) | UnknownDependency(id: Id, dep: Id) | NotInGraph | CycleFound

  // ------------------------------------------------------------------
  // Kahn's counters: dependencies listed minus distinct dependencies processed.

  ghost function Left(deps: seq<Id>, done: set<Id>): int {
    |deps| - |Elems(deps) * done|
  }

  lemma {:induction false} LeftZero(deps: seq<Id>, done: set<Id>)
    ensures Left(deps, done) >= 0
    ensures Left(deps, done) == 0 <==> NoDup(deps) && Elems(deps) <= done
  {
    CardElems(deps);
    SubsetCard(Elems(deps) * done, Elems(deps));
    if Elems(deps) <= done {
      assert Elems(deps) * done == Elems(deps);
    }
  }

  lemma {:induction false} LeftStep(deps: seq<Id>, done: set<Id>, n: Id)
    requires n !in done
    ensures Left(deps, done + {n}) == Left(deps, done) - if n in deps then 1 else 0
  {
    if n in deps {
      assert Elems(deps) * (done + {n}) == (Elems(deps) * done) + {n};
    } else {
      assert Elems(deps) * (done + {n}) == Elems(deps) * done;
    }
  }

  // Tasks that list n as a dependency, in insertion order.
  function Dependents(ids: seq<Id>, g: Graph, n: Id): (r: seq<Id>)
    ensures forall t :: t in r <==> t in ids && t in g && n in g[t]
  {
    Filter(ids, (t: Id) => t in g && n in g[t])
  }

  ghost function Lefts(g: Graph, done: set<Id>): map<Id, int> {
    map t | t in g :: Left(g[t], done)
  }

  // Processing a queued task: all it lists was processed, once each, and the
  // counters of its dependents are now one too high.
  lemma {:induction false} Take(g: Graph, remaining: map<Id, int>, done: set<Id>, ready: set<Id>, tid: Id,
      dependents: seq<Id>)
    requires Counts(Lefts(g, done), remaining, multiset{}) && Queued(remaining, done, ready) && tid in ready
    requires NoDup(dependents) && forall t :: t in dependents <==> t in g && tid in g[t]
    ensures Counts(Lefts(g, done + {tid}), remaining, multiset(dependents))
    ensures NoDup(g[tid]) && Elems(g[tid]) <= done
  {
    var left, left' := Lefts(g, done), Lefts(g, done + {tid});
    forall t | t in g
      ensures left'[t] >= 0 && remaining[t] == left'[t] + multiset(dependents)[t]
    {
      LeftStep(g[t], done, tid);
      LeftZero(g[t], done + {tid});
      NoDupCount(dependents, t);
      assert remaining[t] == left[t];
    }
    assert remaining[tid] == left[tid] == Left(g[tid], done);
    LeftZero(g[tid], done);
  }

  // The verdict of the counters: every task was processed exactly when the graph
  // is closed, repeats no dependency and is acyclic.
  lemma {:induction false} PlacedDecides(g: Graph, remaining: map<Id, int>, done: seq<Id>)
    requires NoDup(done) && Placed(g, done) && forall n :: n in Elems(done) ==> n in g && NoDup(g[n])
    requires Queued(remaining, Elems(done), {}) && Counts(Lefts(g, Elems(done)), remaining, multiset{})
    ensures |done| == |g| <==> Closed(g) && DupFree(g) && !Cyclic(g)
  {
    if DupFree(g) {
      forall n | n in g && n !in done
        ensures Stuck(g, n, done)
      {
        assert remaining[n] == Lefts(g, Elems(done))[n];
        LeftZero(g[n], Elems(done));
        assert !(Elems(g[n]) <= Elems(done));
      }
      assert Exhausted(g, done);
      ExhaustedDecides(g, done);
    } else {
      var n :| n in g && !NoDup(g[n]);
      assert Elems(done) <= g.Keys - {n};
      CardElems(done);
      SubsetCard(Elems(done), g.Keys - {n});
      assert |g| == |g.Keys|;
    }
  }

  // The graph after add_dependency: one more entry, unless it is already listed.
  function WithDependency(g: Graph, n: Id, d: Id): Graph {
    if n in g && d !in g[n] then g[n := g[n] + [d]] else g
  }

  // The state between two rounds of the loop.
  ghost predicate Stage(g: Graph, remaining: map<Id, int>, done: seq<Id>, ready: seq<Id>, todo: seq<Id>) {
    && NoDup(done) && NoDup(ready)
    && Placed(g, done) && (forall n :: n in Elems(done) ==> n in g && NoDup(g[n]))
    && Counts(Lefts(g, Elems(done)), remaining, multiset(todo))
    && Queued(remaining, Elems(done), Elems(ready))
  }

  lemma {:induction false} StageStarts(ids: seq<Id>, g: Graph, remaining: map<Id, int>, ready: seq<Id>)
    requires NoDup(ids) && Elems(ids) == g.Keys
    requires remaining == map id | id in g :: |g[id]|
    requires ready == Filter(ids, (t: Id) => t in g && |g[t]| == 0)
    ensures Stage(g, remaining, [], ready, [])
  {
    FilterNoDup(ids, (t: Id) => t in g && |g[t]| == 0);
    NoneReleased(g, remaining);
    StackStarts(ids, g, remaining, ready);
  }

  lemma {:induction false} NoneReleased(g: Graph, remaining: map<Id, int>)
    requires remaining == map id | id in g :: |g[id]|
    ensures Placed(g, []) && Counts(Lefts(g, Elems([])), remaining, multiset([]))
  {
  }

  lemma {:induction false} StackStarts(ids: seq<Id>, g: Graph, remaining: map<Id, int>, ready: seq<Id>)
    requires Elems(ids) == g.Keys && remaining == map id | id in g :: |g[id]|
    requires ready == Filter(ids, (t: Id) => t in g && |g[t]| == 0)
    ensures Queued(remaining, {}, Elems(ready))
  {
    forall t | t in remaining
      ensures remaining[t] == 0 <==> t in ready
    {
      assert t in Elems(ids);
    }
  }

  lemma {:induction false} StageTakes(g: Graph, remaining: map<Id, int>, done: seq<Id>, ready: seq<Id>,
      dependents: seq<Id>)
    requires ready != [] && Stage(g, remaining, done, ready, [])
    requires NoDup(dependents) && forall t :: t in dependents <==> t in g && ready[|ready| - 1] in g[t]
    ensures Stage(g, remaining, done + [ready[|ready| - 1]], ready[..|ready| - 1], dependents)
    ensures |done| < |g|
  {
    var tid := ready[|ready| - 1];
    PopElems(ready);
    Take(g, remaining, Elems(done), Elems(ready), tid, dependents);
    assert tid in Elems(ready) && tid !in Elems(done);
    PlacedSnoc(g, done, tid);
    DoneFits(g, done + [tid]);
    QueuedMoves(remaining, Elems(done), Elems(ready), tid);
  }

  // Kahn's algorithm with a stack.  A repeated dependency is counted once per
  // listing and released once, so the test also refuses graphs that repeat one.
  method KahnTest(ids: seq<Id>, g: Graph) returns (r: bool)
    requires NoDup(ids) && Elems(ids) == g.Keys
    ensures r <==> Closed(g) && DupFree(g) && !Cyclic(g)
  {
    var remaining := map id | id in g :: |g[id]|;
    var ready := Filter(ids, (t: Id) => t in g && |g[t]| == 0);
    StageStarts(ids, g, remaining, ready);
    var processed := 0;
    ghost var done: seq<Id> := [];
    while ready != []
      invariant processed == |done| && Stage(g, remaining, done, ready, [])
      decreases |g| - processed
    {
      var tid := ready[|ready| - 1];
      var dependents := Dependents(ids, g, tid);
      FilterNoDup(ids, (t: Id) => t in g && tid in g[t]);
      StageTakes(g, remaining, done, ready, dependents);
      ready := ready[..|ready| - 1];
      processed := processed + 1;
      done := done + [tid];
      remaining, ready := Release(dependents, remaining, ready, Lefts(g, Elems(done)), Elems(done));
    }
    PlacedDecides(g, remaining, done);
    return processed == |g|;
  }

  // ------------------------------------------------------------------
  // topological_order: the smallest task without open dependencies, repeatedly

  ghost predicate OpenAt(g: Graph, remaining: map<Id, set<Id>>, placed: set<Id>, t: Id)
    requires t in g && t in remaining
  {
    remaining[t] == Elems(g[t]) - placed
  }

  // The table holds the open dependencies of the tasks not yet placed.
  ghost predicate Open(g: Graph, remaining: map<Id, set<Id>>, placed: set<Id>) {
    && remaining.Keys == g.Keys - placed
    && forall t {:trigger OpenAt(g, remaining, placed, t)} :: t in remaining.Keys ==> OpenAt(g, remaining, placed, t)
  }

  lemma {:induction false} DiscardOpen(g: Graph, remaining: map<Id, set<Id>>, placed: set<Id>, n: Id)
    requires Open(g, remaining, placed)
    ensures Open(g, Discard(remaining, n), placed + {n})
  {
    var r := Discard(remaining, n);
    forall t | t in r.Keys
      ensures OpenAt(g, r, placed + {n}, t)
    {
      assert OpenAt(g, remaining, placed, t);
    }
  }

  predicate Free(remaining: map<Id, set<Id>>, t: Id) {
    t in remaining && remaining[t] == {}
  }

  // Removing a placed task, from the table and from every open set.
  function Discard(remaining: map<Id, set<Id>>, n: Id): (r: map<Id, set<Id>>)
    ensures r.Keys == remaining.Keys - {n}
    ensures n in remaining ==> |r.Keys| < |remaining.Keys|
  {
    assert n in remaining ==> |remaining.Keys - {n}| < |remaining.Keys|;
    map t | t in remaining && t != n :: remaining[t] - {n}
  }

  // The order built so far begins every topological order or precedes it.
  ghost predicate SoFarLeast(g: Graph, order: seq<Id>) {
    forall s :: TopologicalOrder(g, s) ==> order <= s || LexBefore(order, s)
  }

  lemma {:induction false} SomeReady(g: Graph, remaining: map<Id, set<Id>>, order: seq<Id>)
    requires Closed(g) && !Cyclic(g) && Open(g, remaining, Elems(order)) && remaining.Keys != {}
    ensures exists t :: Free(remaining, t)
  {
    if forall t :: !Free(remaining, t) {
      forall t | t in remaining.Keys
        ensures WaitsOn(g, t, remaining.Keys)
      {
        assert !Free(remaining, t) && OpenAt(g, remaining, Elems(order), t);
        var d :| d in remaining[t];
        assert d in Elems(g[t]) && d !in Elems(order);
      }
      StuckMeansCyclic(g, remaining.Keys);
    }
  }

  lemma {:induction false} PlaceLeast(g: Graph, remaining: map<Id, set<Id>>, order: seq<Id>, ready: seq<Id>, tid: Id)
    requires Closed(g) && NoDup(order) && Placed(g, order) && Open(g, remaining, Elems(order)) && SoFarLeast(g, order)
    requires forall t {:trigger Free(remaining, t)} :: t in ready <==> Free(remaining, t)
    requires tid in ready && forall t :: t in ready ==> IdLeq(tid, t)
    ensures NoDup(order + [tid]) && Placed(g, order + [tid])
    ensures Open(g, Discard(remaining, tid), Elems(order + [tid]))
    ensures SoFarLeast(g, order + [tid])
  {
    assert Free(remaining, tid) && OpenAt(g, remaining, Elems(order), tid);
    assert tid !in Elems(order);
    DiscardOpen(g, remaining, Elems(order), tid);
    assert forall d :: d in Elems(g[tid]) ==> d in Elems(order) || d in remaining[tid];
    PlacedSnoc(g, order, tid);
    forall s | TopologicalOrder(g, s)
      ensures order + [tid] <= s || LexBefore(order + [tid], s)
    {
      LeastStep(g, remaining, order, ready, tid, s);
    }
  }

  // A topological order that begins with `order` goes on with a ready task.
  lemma {:induction false} NextIsReady(g: Graph, remaining: map<Id, set<Id>>, order: seq<Id>, s: seq<Id>)
    requires Closed(g) && Open(g, remaining, Elems(order)) && remaining.Keys != {}
    requires TopologicalOrder(g, s) && order <= s
    ensures |order| < |s| && Free(remaining, s[|order|])
  {
    var k := |order|;
    var t :| t in remaining;
    assert t !in Elems(order) && t in Elems(s);
    assert k != |s|;
    var n := s[k];
    assert s[..k] == order;
    assert Follows(g, s, k);
    assert n in Elems(s) && Elems(g[n]) <= Elems(order);
    NoDupCut(s, 0, k);
    assert n !in Elems(order) && OpenAt(g, remaining, Elems(order), n);
  }

  lemma {:induction false} LexGrows(order: seq<Id>, tid: Id, s: seq<Id>)
    requires LexBefore(order, s)
    ensures LexBefore(order + [tid], s)
  {
    var i :| 0 <= i < |order| && i < |s| && order[..i] == s[..i] && IdLess(order[i], s[i]);
    assert (order + [tid])[..i] == s[..i];
  }

  lemma {:induction false} LeastStep(g: Graph, remaining: map<Id, set<Id>>, order: seq<Id>, ready: seq<Id>, tid: Id,
      s: seq<Id>)
    requires Closed(g) && Open(g, remaining, Elems(order)) && tid in remaining
    requires forall t {:trigger Free(remaining, t)} :: t in ready <==> Free(remaining, t)
    requires forall t :: t in ready ==> IdLeq(tid, t)
    requires TopologicalOrder(g, s) && (order <= s || LexBefore(order, s))
    ensures order + [tid] <= s || LexBefore(order + [tid], s)
  {
    if LexBefore(order, s) {
      LexGrows(order, tid, s);
    } else {
      NextIsReady(g, remaining, order, s);
      var k := |order|;
      assert s[k] in ready;
      assert (order + [tid])[..k] == s[..k];
      if s[k] != tid {
        assert IdLess((order + [tid])[k], s[k]);
      }
    }
  }

  lemma {:induction false} ReadyIsLeast(g: Graph, ids: seq<Id>, remaining: map<Id, set<Id>>, order: seq<Id>,
      free: seq<Id>, ready: seq<Id>)
    requires Closed(g) && !Cyclic(g) && Elems(ids) == g.Keys
    requires Open(g, remaining, Elems(order)) && remaining.Keys != {}
    requires free == Filter(ids, (t: Id) => Free(remaining, t))
    requires ready == Sort(IdLeq, free)
    ensures ready != [] && forall t {:trigger Free(remaining, t)} :: t in ready <==> Free(remaining, t)
    ensures forall t :: t in ready ==> IdLeq(ready[0], t)
  {
    SomeReady(g, remaining, order);
    var t :| Free(remaining, t);
    assert t in Elems(ids);
    assert t in free;
    SameElems(ready, free);
    IdOrder(free);
    SortSorts(IdLeq, free);
    forall t | t in ready
      ensures IdLeq(ready[0], t)
    {
      StrTotal(t.name, t.name);
    }
    forall t | Free(remaining, t)
      ensures t in ready
    {
      assert t in Elems(ids);
      assert t in free;
    }
  }

  lemma {:induction false} WholeOrderLeast(g: Graph, order: seq<Id>)
    requires NoDup(order) && Placed(g, order) && SoFarLeast(g, order)
    requires g.Keys - Elems(order) == {}
    ensures LeastOrder(g, order)
  {
    PlacedInside(g, order);
    assert forall n :: n in g.Keys ==> n in Elems(order) || n in g.Keys - Elems(order);
    assert Elems(order) == g.Keys;
    forall s | TopologicalOrder(g, s)
      ensures s == order || LexBefore(order, s)
    {
      CardElems(s);
      CardElems(order);
    }
  }

  // The loop of topological_order.  Its second raise, for an empty ready list,
  // cannot be reached once the graph is known to be acyclic.
  method SmallestFirst(ids: seq<Id>, g: Graph) returns (order: seq<Id>)
    requires Elems(ids) == g.Keys && Closed(g) && !Cyclic(g)
    ensures LeastOrder(g, order)
  {
    order := [];
    var remaining := map t | t in g :: Elems(g[t]);
    forall t | t in remaining.Keys
      ensures OpenAt(g, remaining, {}, t)
    {
    }
    while remaining.Keys != {}
      invariant NoDup(order) && Placed(g, order) && Open(g, remaining, Elems(order)) && SoFarLeast(g, order)
      decreases |remaining.Keys|
    {
      var free := Filter(ids, (t: Id) => Free(remaining, t));
      var ready := Sort(IdLeq, free);
      ReadyIsLeast(g, ids, remaining, order, free, ready);
      if ready == [] {
        assert false;
      }
      var tid := ready[0];
      assert Free(remaining, tid);
      PlaceLeast(g, remaining, order, ready, tid);
      order := order + [tid];
      remaining := Discard(remaining, tid);
    }
    WholeOrderLeast(g, order);
  }

  // critical_path, on the values it reads.
  method CostliestChain(ids: seq<Id>, g: Graph, cost: map<Id, real>) returns (r: Result<(seq<Id>, real), GraphError>)
    requires NoDup(ids) && Elems(ids) == g.Keys == cost.Keys && Closed(g)
    ensures r.Ok? <==> !Cyclic(g) && DupFree(g)
    ensures r.Ok? ==> LongestChains.CriticalPath(g, cost, r.value.0, r.value.1)
    ensures r.Err? ==> r.error == CycleFound
  {
    var acyclic := KahnTest(ids, g);
    if !acyclic {
      return Err(CycleFound);
    }
    var order := SmallestFirst(ids, g);
    var path, total := FindCriticalPath(g, cost, order);
    return Ok((path, total));
  }

  class TaskGraph {
    // The dictionary: its keys in insertion order, and its entries.
    var ids: seq<Id>
    var nodes: map<Id, TaskNode>

    ghost predicate Valid()
      reads this, nodes.Values
    {
      && NoDup(ids) && Elems(ids) == nodes.Keys
      && (forall id :: id in nodes ==> nodes[id].taskId == id)
      && Closed(Deps())
    }

    function Deps(): Graph
      reads this, nodes.Values
    {
      map id | id in nodes :: nodes[id].dependsOn
    }

    constructor ()
      ensures Valid() && ids == [] && nodes == map[]
    {
      ids, nodes := [], map[];
    }

    method Add(task: TaskNode) returns (r: Result<(), GraphError>)
      requires Valid()
      modifies this
      ensures Valid()
      ensures r.Ok? <==>
        task.taskId !in old(nodes) && forall d :: d in task.dependsOn ==> d in old(nodes) || d == task.taskId
      ensures r.Ok? ==> ids == old(ids) + [task.taskId] && nodes == old(nodes)[task.taskId := task]
      ensures r.Err? ==> ids == old(ids) && nodes == old(nodes)
      ensures task.taskId in old(nodes) ==> r == Err(DuplicateTask(task.taskId))
    {
      if task.taskId in nodes {
        return Err(DuplicateTask(task.taskId));
      }
      for i := 0 to |task.dependsOn|
        invariant forall j :: 0 <= j < i ==> task.dependsOn[j] in nodes || task.dependsOn[j] == task.taskId
      {
        var dep := task.dependsOn[i];
        if dep !in nodes && dep != task.taskId {
          return Err(UnknownDependency(task.taskId, dep));
        }
      }
      assert task.taskId !in Elems(ids);
      ElemsSnoc(ids, task.taskId);
      NoDupSnoc(ids, task.taskId);
      ids := ids + [task.taskId];
      nodes := nodes[task.taskId := task];
      assert forall id :: id in old(nodes) ==> id in Deps() && Deps()[id] == old(Deps())[id];
      return Ok(());
    }

    method AddDependency(taskId: Id, dependsOn: Id) returns (r: Result<(), GraphError>)
      requires Valid()
      modifies nodes.Values
      ensures Valid() && ids == old(ids) && nodes == old(nodes)
      ensures r.Ok? <==> taskId in nodes && dependsOn in nodes
      ensures r.Err? ==> Deps() == old(Deps()) && r.error == NotInGraph
      ensures r.Ok? ==> Deps() == WithDependency(old(Deps()), taskId, dependsOn)
    {
      if taskId !in nodes || dependsOn !in nodes {
        return Err(NotInGraph);
      }
      var node := nodes[taskId];
      if dependsOn !in node.dependsOn {
        node.dependsOn := node.dependsOn + [dependsOn];
      }
      assert forall id :: id in nodes && id != taskId ==> nodes[id].taskId != node.taskId;
      assert forall id :: id in nodes && id != taskId ==> nodes[id].dependsOn == old(nodes[id].dependsOn);
      return Ok(());
    }

    method IsAcyclic() returns (r: bool)
      requires Valid()
      ensures r <==> !Cyclic(Deps()) && DupFree(Deps())
    {
      var g := Deps();
      r := KahnTest(ids, g);
      assert g == Deps();
    }

    // The second raise of the source, for an empty ready list, cannot be reached.
    method TopologicalOrder() returns (r: Result<seq<Id>, GraphError>)
      requires Valid()
      ensures r.Ok? <==> !Cyclic(Deps()) && DupFree(Deps())
      ensures r.Ok? ==> LeastOrder(Deps(), r.value)
      ensures r.Err? ==> r.error == CycleFound
    {
      var acyclic := IsAcyclic();
      if !acyclic {
        return Err(CycleFound);
      }
      var g := Deps();
      var order := SmallestFirst(ids, g);
      assert g == Deps();
      return Ok(order);
    }

    function Costs(): map<Id, real>
      reads this
    {
      map id | id in nodes :: nodes[id].cost
    }

    method CriticalPath() returns (r: Result<(seq<Id>, real), GraphError>)
      requires Valid()
      ensures r.Ok? <==> !Cyclic(Deps()) && DupFree(Deps())
      ensures r.Ok? ==> LongestChains.CriticalPath(Deps(), Costs(), r.value.0, r.value.1)
      ensures r.Err? ==> r.error == CycleFound
    {
      var g, cost := Deps(), Costs();
      r := CostliestChain(ids, g, cost);
      assert g == Deps() && cost == Costs();
    }

    function States(): map<Id, RunState>
      reads this, nodes.Values
    {
      map id | id in nodes :: RunState(nodes[id].status, nodes[id].attempts, nodes[id].error)
    }

    // Setting the fields of one node that a run changes.
    method Record(n: Id, x: RunState)
      requires Valid() && n in nodes
      modifies nodes[n]
      ensures Valid() && ids == old(ids) && nodes == old(nodes) && Deps() == old(Deps())
      ensures States() == old(States())[n := x]
    {
      var node := nodes[n];
      node.status, node.attempts, node.error := x.status, x.attempts, x.error;
      assert forall id :: id in nodes && id != n ==> nodes[id].taskId != node.taskId;
      assert Deps() == old(Deps());
    }

    // Pending tasks whose dependencies are all completed, in insertion order.
    function ReadyNodes(): (r: seq<Id>)
      requires Valid()
      reads this, nodes.Values
      ensures forall n :: n in r <==> IsReady(Deps(), States(), n)
    {
      assert forall n :: n in nodes <==> n in Elems(ids);
      var g, st := Deps(), States();
      Filter(ids, (n: Id) => IsReady(g, st, n))
    }
  }

  // The smallest graph without a cycle that the cycle test refuses: b lists a twice.
  lemma {:induction false} RepeatedDependency(a: Id, b: Id)
    requires a != b
    ensures var g: Graph := map[a := [], b := [a, a]];
      Closed(g) && !Cyclic(g) && !DupFree(g)
  {
    var g: Graph := map[a := [], b := [a, a]];
    assert [a, b][..1] == [a];
    assert Follows(g, [a, b], 0) && Follows(g, [a, b], 1);
    OrderedMeansAcyclic(g, [a, b]);
    assert !Differ(g[b], 0, 1);
  }

  // That graph, built by Add.
  method BuildRepeated(a: Id, b: Id) returns (graph: TaskGraph)
    requires a != b
    ensures graph.Valid() && graph.Deps() == map[a := [], b := [a, a]]
  {
    graph := new TaskGraph();
    AddTask(graph, a, [], map[]);
    AddTask(graph, b, [a, a], map[a := []]);
  }

  method AddTask(graph: TaskGraph, n: Id, deps: seq<Id>, ghost g: Graph)
    requires graph.Valid() && graph.Deps() == g && n !in g && forall d :: d in deps ==> d in g
    modifies graph
    ensures graph.Valid() && graph.Deps() == g[n := deps]
  {
    var task := new TaskNode(n, 0, deps, None, 0, 1.0);
    ghost var before := graph.nodes;
    assert forall id :: id in before ==> id in g;
    var added := graph.Add(task);
    assert graph.Deps() == g[n := deps];
  }

  method RepeatedDependencyRefused(a: Id, b: Id) returns (acyclic: bool)
    requires a != b
    ensures !acyclic
  {
    var graph := BuildRepeated(a, b);
    RepeatedDependency(a, b);
    acyclic := graph.IsAcyclic();
  }
}
