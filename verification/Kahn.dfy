// The bookkeeping shared by the repository's three versions of Kahn's algorithm:
// counters that fall to zero, a queue of tasks at zero, and the tasks processed.
module Kahn {
  import opened Seqs
  import opened Graphs

  // What the counters show while the entries `todo` still have to be decremented.
  ghost predicate Counts(left: map<Id, int>, remaining: map<Id, int>, todo: multiset<Id>) {
    && remaining.Keys == left.Keys
    && forall t {:trigger remaining[t]} {:trigger left[t]} ::
      t in left ==> left[t] >= 0 && remaining[t] == left[t] + todo[t]
  }

  // The tasks processed or queued are exactly those whose counter is zero.
  ghost predicate Queued(remaining: map<Id, int>, done: set<Id>, ready: set<Id>) {
    && done !! ready && done <= remaining.Keys && ready <= remaining.Keys
    && forall t {:trigger remaining[t]} :: t in remaining ==> (remaining[t] == 0 <==> t in done || t in ready)
  }

  lemma {:induction false} QueuedMoves(remaining: map<Id, int>, done: set<Id>, ready: set<Id>, t: Id)
    requires Queued(remaining, done, ready) && t in ready
    ensures Queued(remaining, done + {t}, ready - {t})
  {
  }

  // Decrementing an entry, and queueing it when it reaches zero.
  lemma {:induction false} Decrement(left: map<Id, int>, remaining: map<Id, int>, done: set<Id>, todo: multiset<Id>,
      ready: set<Id>, t: Id)
    requires t in todo && t in left
    requires Counts(left, remaining, todo) && Queued(remaining, done, ready)
    ensures t !in ready
    ensures var remaining' := remaining[t := remaining[t] - 1];
      && Counts(left, remaining', todo - multiset{t})
      && Queued(remaining', done, if remaining'[t] == 0 then ready + {t} else ready)
  {
  }

  // What is left to visit of a list after its next entry.
  lemma {:induction false} NextTodo(s: seq<Id>, i: nat)
    requires i < |s|
    ensures s[i] in multiset(s[i..])
    ensures multiset(s[i..]) - multiset{s[i]} == multiset(s[i + 1..])
  {
    assert s[i..] == [s[i]] + s[i + 1..];
  }

  // The loop over the dependents of a processed task: each entry is decremented
  // once per listing and queued when its counter reaches zero.
  method Release(entries: seq<Id>, counters: map<Id, int>, queue: seq<Id>, ghost left: map<Id, int>,
      ghost done: set<Id>) returns (remaining: map<Id, int>, ready: seq<Id>)
    requires Counts(left, counters, multiset(entries)) && Queued(counters, done, Elems(queue))
    requires NoDup(queue) && forall t :: t in entries ==> t in left
    ensures Counts(left, remaining, multiset{}) && Queued(remaining, done, Elems(ready))
    ensures NoDup(ready) && queue <= ready
  {
    remaining, ready := counters, queue;
    assert entries[0..] == entries;
    var i := 0;
    while i < |entries|
      invariant 0 <= i <= |entries| && NoDup(ready) && queue <= ready
      invariant Counts(left, remaining, multiset(entries[i..]))
      invariant Queued(remaining, done, Elems(ready))
    {
      var t := entries[i];
      NextTodo(entries, i);
      Decrement(left, remaining, done, multiset(entries[i..]), Elems(ready), t);
      remaining := remaining[t := remaining[t] - 1];
      if remaining[t] == 0 {
        ElemsSnoc(ready, t);
        NoDupSnoc(ready, t);
        ready := ready + [t];
      }
      i := i + 1;
    }
  }

  // Distinct tasks of the graph are no more than the graph holds.
  lemma {:induction false} DoneFits(g: Graph, done: seq<Id>)
    requires NoDup(done) && Elems(done) <= g.Keys
    ensures |done| <= |g|
  {
    CardElems(done);
    SubsetCard(Elems(done), g.Keys);
    assert |g| == |g.Keys|;
  }

  // ------------------------------------------------------------------
  // Kahn's algorithm with a queue over a multigraph: a dependency listed k times
  // makes k edges, counts k times and is released k times.

  // How many listings of a task are still open.
  function Blocked(deps: seq<Id>, done: set<Id>): nat {
    if deps == [] then 0 else (if deps[0] in done then 0 else 1) + Blocked(deps[1..], done)
  }

  lemma {:induction false} BlockedZero(deps: seq<Id>, done: set<Id>)
    ensures Blocked(deps, done) == 0 <==> Elems(deps) <= done
  {
    if deps != [] {
      BlockedZero(deps[1..], done);
      assert deps == [deps[0]] + deps[1..];
      assert Elems(deps) == {deps[0]} + Elems(deps[1..]);
    }
  }

  lemma {:induction false} BlockedStep(deps: seq<Id>, done: set<Id>, n: Id)
    requires n !in done
    ensures Blocked(deps, done) == Blocked(deps, done + {n}) + multiset(deps)[n]
  {
    if deps != [] {
      BlockedStep(deps[1..], done, n);
      assert deps == [deps[0]] + deps[1..];
    }
  }

  lemma {:induction false} BlockedStart(deps: seq<Id>)
    ensures Blocked(deps, {}) == |deps|
  {
    if deps != [] {
      BlockedStart(deps[1..]);
    }
  }

  ghost function Blocks(g: Graph, done: set<Id>): map<Id, int> {
    map t | t in g :: Blocked(g[t], done)
  }

  function Edges(adjacency: map<Id, seq<Id>>, n: Id): seq<Id> {
    if n in adjacency then adjacency[n] else []
  }

  ghost predicate AdjacentAt(g: Graph, adjacency: map<Id, seq<Id>>, n: Id, t: Id) {
    multiset(Edges(adjacency, n))[t] == if t in g then multiset(g[t])[n] else 0
  }

  // Task n leads to t once for every time t lists n.
  ghost predicate Adjacent(g: Graph, adjacency: map<Id, seq<Id>>) {
    forall n, t {:trigger AdjacentAt(g, adjacency, n, t)} :: AdjacentAt(g, adjacency, n, t)
  }

  lemma {:induction false} AddEdge(g: Graph, adjacency: map<Id, seq<Id>>, dep: Id, t: Id)
    requires Adjacent(g, adjacency) && t in g
    ensures Adjacent(g[t := g[t] + [dep]], adjacency[dep := Edges(adjacency, dep) + [t]])
  {
    var g', adjacency' := g[t := g[t] + [dep]], adjacency[dep := Edges(adjacency, dep) + [t]];
    forall n, u
      ensures AdjacentAt(g', adjacency', n, u)
    {
      assert AdjacentAt(g, adjacency, n, u);
    }
  }

  // The lists and in-degrees are those of the graph.
  ghost predicate Built(g: Graph, adjacency: map<Id, seq<Id>>, indegree: map<Id, int>) {
    && Adjacent(g, adjacency) && indegree.Keys == g.Keys
    && forall t {:trigger indegree[t]} :: t in g ==> indegree[t] == |g[t]|
  }

  // The dependencies of the given tasks only.
  ghost function Only(g: Graph, ts: set<Id>): Graph {
    map t | t in g :: if t in ts then g[t] else []
  }

  method AddEdges(t: Id, deps: seq<Id>, lists: map<Id, seq<Id>>, degrees: map<Id, int>, ghost g: Graph)
      returns (adjacency: map<Id, seq<Id>>, indegree: map<Id, int>)
    requires t in g && g[t] == [] && Built(g, lists, degrees)
    ensures Built(g[t := deps], adjacency, indegree)
  {
    adjacency, indegree := lists, degrees;
    assert g[t := deps[..0]] == g;
    var j := 0;
    while j < |deps|
      invariant 0 <= j <= |deps|
      invariant Built(g[t := deps[..j]], adjacency, indegree)
    {
      ghost var part := g[t := deps[..j]];
      AddEdge(part, adjacency, deps[j], t);
      adjacency := adjacency[deps[j] := Edges(adjacency, deps[j]) + [t]];
      indegree := indegree[t := indegree[t] + 1];
      assert part[t] + [deps[j]] == deps[..j + 1];
      assert part[t := deps[..j + 1]] == g[t := deps[..j + 1]];
      j := j + 1;
    }
    assert deps[..|deps|] == deps;
  }

  // The adjacency lists and in-degrees of the dependencies listed.
  method BuildEdges(ids: seq<Id>, g: Graph) returns (adjacency: map<Id, seq<Id>>, indegree: map<Id, int>)
    requires NoDup(ids) && Elems(ids) == g.Keys
    ensures Built(g, adjacency, indegree)
  {
    adjacency, indegree := map[], map t | t in g :: 0;
    NoEdges(g, ids, indegree);
    var i := 0;
    while i < |ids|
      invariant 0 <= i <= |ids|
      invariant BuiltUpTo(g, ids, i, adjacency, indegree)
    {
      adjacency, indegree := AddTask(g, ids, i, adjacency, indegree);
      i := i + 1;
    }
    AllTasks(g, ids, adjacency, indegree);
  }

  // The edges of the first i tasks are there.
  ghost predicate BuiltUpTo(g: Graph, ids: seq<Id>, i: nat, adjacency: map<Id, seq<Id>>, indegree: map<Id, int>)
    requires i <= |ids|
  {
    Built(Only(g, Elems(ids[..i])), adjacency, indegree)
  }

  method AddTask(g: Graph, ids: seq<Id>, i: nat, adjacency: map<Id, seq<Id>>, indegree: map<Id, int>)
      returns (lists: map<Id, seq<Id>>, counts: map<Id, int>)
    requires NoDup(ids) && Elems(ids) == g.Keys && i < |ids| && BuiltUpTo(g, ids, i, adjacency, indegree)
    ensures BuiltUpTo(g, ids, i + 1, lists, counts)
  {
    OneMoreTask(g, ids, i);
    lists, counts := AddEdges(ids[i], g[ids[i]], adjacency, indegree, Only(g, Elems(ids[..i])));
  }

  lemma {:induction false} AllTasks(g: Graph, ids: seq<Id>, adjacency: map<Id, seq<Id>>, indegree: map<Id, int>)
    requires Elems(ids) == g.Keys && BuiltUpTo(g, ids, |ids|, adjacency, indegree)
    ensures Built(g, adjacency, indegree)
  {
    assert ids[..|ids|] == ids;
    assert Only(g, Elems(ids)) == g;
  }

  lemma {:induction false} NoEdges(g: Graph, ids: seq<Id>, indegree: map<Id, int>)
    requires indegree == map t | t in g :: 0
    ensures BuiltUpTo(g, ids, 0, map[], indegree)
  {
    assert Elems(ids[..0]) == {};
    forall n, t
      ensures AdjacentAt(Only(g, {}), map[], n, t)
    {
    }
  }

  lemma {:induction false} OneMoreTask(g: Graph, ids: seq<Id>, i: nat)
    requires NoDup(ids) && Elems(ids) == g.Keys && i < |ids|
    ensures ids[i] in g && Only(g, Elems(ids[..i]))[ids[i]] == []
    ensures Only(g, Elems(ids[..i + 1])) == Only(g, Elems(ids[..i]))[ids[i] := g[ids[i]]]
  {
    var t := ids[i];
    assert t in Elems(ids);
    NoDupCut(ids, 0, i);
    assert ids[..i + 1] == ids[..i] + [t];
    ElemsSnoc(ids[..i], t);
    assert t !in Elems(ids[..i]);
  }

  // Between two rounds, with the entries `todo` still to be decremented.
  ghost predicate Draining(g: Graph, indegree: map<Id, int>, done: seq<Id>, queue: seq<Id>, todo: seq<Id>) {
    && NoDup(done) && NoDup(queue) && Placed(g, done)
    && Counts(Blocks(g, Elems(done)), indegree, multiset(todo))
    && Queued(indegree, Elems(done), Elems(queue))
  }

  lemma {:induction false} DrainStarts(ids: seq<Id>, g: Graph, indegree: map<Id, int>, queue: seq<Id>)
    requires NoDup(ids) && Elems(ids) == g.Keys == indegree.Keys
    requires forall t {:trigger indegree[t]} :: t in g ==> indegree[t] == |g[t]|
    requires queue == Filter(ids, (t: Id) => t in indegree && indegree[t] == 0)
    ensures Draining(g, indegree, [], queue, [])
  {
    FilterNoDup(ids, (t: Id) => t in indegree && indegree[t] == 0);
    assert Elems<Id>([]) == {};
    var left := Blocks(g, {});
    forall t | t in left
      ensures left[t] >= 0 && indegree[t] == left[t]
    {
      BlockedStart(g[t]);
    }
    assert forall t :: t in g <==> t in Elems(ids);
  }

  lemma {:induction false} DrainTakes(g: Graph, indegree: map<Id, int>, done: seq<Id>, queue: seq<Id>,
      adjacency: map<Id, seq<Id>>)
    requires queue != [] && Draining(g, indegree, done, queue, []) && Adjacent(g, adjacency)
    ensures Draining(g, indegree, done + [queue[0]], queue[1..], Edges(adjacency, queue[0]))
    ensures forall t :: t in Edges(adjacency, queue[0]) ==> t in g
    ensures |done| < |g|
  {
    var n := queue[0];
    var todo := Edges(adjacency, n);
    TailElems(queue);
    assert n in Elems(queue) && n !in Elems(done);
    QueuedMoves(indegree, Elems(done), Elems(queue), n);
    assert indegree[n] == Blocks(g, Elems(done))[n] == 0;
    BlockedZero(g[n], Elems(done));
    PlacedSnoc(g, done, n);
    DoneFits(g, done + [n]);
    forall t | t in todo
      ensures t in g
    {
      assert AdjacentAt(g, adjacency, n, t);
      assert t in multiset(todo);
    }
    DrainCounts(g, indegree, Elems(done), n, adjacency);
  }

  lemma {:induction false} DrainCounts(g: Graph, indegree: map<Id, int>, done: set<Id>, n: Id,
      adjacency: map<Id, seq<Id>>)
    requires Counts(Blocks(g, done), indegree, multiset{}) && Adjacent(g, adjacency) && n !in done
    ensures Counts(Blocks(g, done + {n}), indegree, multiset(Edges(adjacency, n)))
  {
    var left := Blocks(g, done + {n});
    forall t | t in left
      ensures left[t] >= 0 && indegree[t] == left[t] + multiset(Edges(adjacency, n))[t]
    {
      assert indegree[t] == Blocks(g, done)[t];
      BlockedStep(g[t], done, n);
      assert AdjacentAt(g, adjacency, n, t);
    }
  }

  lemma {:induction false} DrainEnds(g: Graph, indegree: map<Id, int>, done: seq<Id>)
    requires Draining(g, indegree, done, [], [])
    ensures Exhausted(g, done)
  {
    forall n | n in g && n !in done
      ensures Stuck(g, n, done)
    {
      assert indegree[n] == Blocks(g, Elems(done))[n];
      BlockedZero(g[n], Elems(done));
      assert !(Elems(g[n]) <= Elems(done));
    }
  }

  // The queue loop: what it places, in order.
  method DrainQueue(ids: seq<Id>, g: Graph, adjacency: map<Id, seq<Id>>, degrees: map<Id, int>) returns (order: seq<Id>)
    requires NoDup(ids) && Elems(ids) == g.Keys && Built(g, adjacency, degrees)
    ensures Exhausted(g, order)
  {
    var indegree := degrees;
    var queue := Filter(ids, (t: Id) => t in indegree && indegree[t] == 0);
    DrainStarts(ids, g, indegree, queue);
    order := [];
    while queue != []
      invariant Draining(g, indegree, order, queue, [])
      decreases |g| - |order|
    {
      var node := queue[0];
      DrainTakes(g, indegree, order, queue, adjacency);
      queue := queue[1..];
      order := order + [node];
      indegree, queue := Release(Edges(adjacency, node), indegree, queue, Blocks(g, Elems(order)), Elems(order));
    }
    DrainEnds(g, indegree, order);
  }
}
