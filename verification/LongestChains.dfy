// The dynamic programme behind TaskGraph.critical_path
// (src/cadgenesis/agents/scheduling.py): a table of the costliest chain ending at
// each task, and the backtracking that reads a chain off the table.
module LongestChains {
  import opened Results
  import opened Seqs
  import opened Graphs

  function ChainCost(cost: map<Id, real>, p: seq<Id>): real
    requires forall n :: n in p ==> n in cost
  {
    if p == [] then 0.0 else cost[p[0]] + ChainCost(cost, p[1..])
  }

  lemma {:induction false} ChainCostSnoc(cost: map<Id, real>, p: seq<Id>, n: Id)
    requires n in cost && forall m :: m in p ==> m in cost
    ensures ChainCost(cost, p + [n]) == ChainCost(cost, p) + cost[n]
  {
    if p != [] {
      assert (p + [n])[1..] == p[1..] + [n];
      ChainCostSnoc(cost, p[1..], n);
    }
  }

  // The first of the entries whose value no other exceeds.
  function FirstMax(ds: seq<Id>, v: map<Id, real>): (m: Id)
    requires ds != [] && forall d :: d in ds ==> d in v
    ensures m in ds && forall d :: d in ds ==> v[d] <= v[m]
  {
    if |ds| == 1 then ds[0]
    else
      var m := FirstMax(ds[..|ds| - 1], v);
      var e := ds[|ds| - 1];
      assert forall d :: d in ds ==> d == e || d in ds[..|ds| - 1];
      if v[e] > v[m] then e else m
  }

  // It stands at or before every entry that has its value.
  lemma {:induction false} FirstMaxIsFirst(ds: seq<Id>, v: map<Id, real>, i: nat)
    requires i < |ds| && forall d :: d in ds ==> d in v
    requires v[ds[i]] == v[FirstMax(ds, v)]
    ensures FirstMax(ds, v) in ds[..i + 1]
  {
    var n := |ds| - 1;
    if i == n {
      assert ds[..n + 1] == ds;
    } else {
      var front := ds[..n];
      assert front[i] == ds[i] && front[i] in front;
      FirstMaxIsFirst(front, v, i);
      assert front[..i + 1] == ds[..i + 1];
    }
  }

  // The largest value among the dependencies, zero without any.
  function Best(ds: seq<Id>, v: map<Id, real>): (b: real)
    requires forall d :: d in ds ==> d in v
    ensures forall d :: d in ds ==> v[d] <= b
  {
    if ds == [] then 0.0 else v[FirstMax(ds, v)]
  }

  lemma {:induction false} FirstMaxFrame(ds: seq<Id>, v: map<Id, real>, w: map<Id, real>)
    requires ds != [] && forall d :: d in ds ==> d in v && d in w && v[d] == w[d]
    ensures FirstMax(ds, v) == FirstMax(ds, w)
  {
    if |ds| > 1 {
      assert forall d :: d in ds[..|ds| - 1] ==> d in ds;
      FirstMaxFrame(ds[..|ds| - 1], v, w);
    }
  }

  ghost predicate LongestAt(g: Graph, cost: map<Id, real>, longest: map<Id, real>, n: Id)
    requires n in g && n in cost && n in longest
  {
    (forall d :: d in g[n] ==> d in longest) && longest[n] == Best(g[n], longest) + cost[n]
  }

  ghost predicate Longest(g: Graph, cost: map<Id, real>, longest: map<Id, real>)
    requires cost.Keys == g.Keys
  {
    && longest.Keys <= g.Keys
    && forall n {:trigger LongestAt(g, cost, longest, n)} :: n in longest ==> LongestAt(g, cost, longest, n)
  }

  ghost predicate NonNegative(m: map<Id, real>) {
    forall n {:trigger m[n]} :: n in m ==> m[n] >= 0.0
  }

  lemma {:induction false} LongestExtends(g: Graph, cost: map<Id, real>, v: map<Id, real>, n: Id)
    requires cost.Keys == g.Keys && Longest(g, cost, v) && n in g && n !in v
    requires forall d :: d in g[n] ==> d in v
    ensures Longest(g, cost, v[n := Best(g[n], v) + cost[n]])
    ensures NonNegative(cost) && NonNegative(v) ==> NonNegative(v[n := Best(g[n], v) + cost[n]])
  {
    var w := v[n := Best(g[n], v) + cost[n]];
    forall m | m in w
      ensures LongestAt(g, cost, w, m)
    {
      assert m != n ==> LongestAt(g, cost, v, m);
      if g[m] != [] {
        FirstMaxFrame(g[m], v, w);
      }
    }
    if NonNegative(cost) && NonNegative(v) {
      assert cost[n] >= 0.0;
      if g[n] != [] {
        assert v[FirstMax(g[n], v)] >= 0.0;
      }
    }
  }

  method LongestTable(g: Graph, cost: map<Id, real>, order: seq<Id>) returns (longest: map<Id, real>)
    requires Closed(g) && TopologicalOrder(g, order) && cost.Keys == g.Keys
    ensures longest.Keys == g.Keys && Longest(g, cost, longest)
    ensures NonNegative(cost) ==> NonNegative(longest)
  {
    longest := map[];
    for i := 0 to |order|
      invariant longest.Keys == Elems(order[..i])
      invariant Longest(g, cost, longest)
      invariant NonNegative(cost) ==> NonNegative(longest)
    {
      var tid := order[i];
      NextInOrder(g, order, i);
      LongestExtends(g, cost, longest, tid);
      longest := longest[tid := Best(g[tid], longest) + cost[tid]];
    }
    assert order[..|order|] == order;
  }

  lemma {:induction false} NextInOrder(g: Graph, order: seq<Id>, i: nat)
    requires Closed(g) && TopologicalOrder(g, order) && i < |order|
    ensures order[i] in g && order[i] !in Elems(order[..i])
    ensures forall d :: d in g[order[i]] ==> d in Elems(order[..i])
    ensures Elems(order[..i + 1]) == Elems(order[..i]) + {order[i]}
  {
    assert Follows(g, order, i);
    NoDupCut(order, 0, i);
    assert order[0..i] == order[..i];
    assert order[..i + 1] == order[..i] + [order[i]];
    ElemsSnoc(order[..i], order[i]);
  }

  // No chain from a dependency-free task costs more than the table says.
  lemma {:induction false} TableBounds(g: Graph, cost: map<Id, real>, longest: map<Id, real>, p: seq<Id>)
    requires Closed(g) && cost.Keys == g.Keys == longest.Keys && Longest(g, cost, longest)
    requires Chain(g, p) && (g[p[0]] == [] || (NonNegative(cost) && NonNegative(longest)))
    ensures ChainCost(cost, p) <= longest[p[|p| - 1]]
  {
    var n := p[|p| - 1];
    assert LongestAt(g, cost, longest, n);
    var q := p[..|p| - 1];
    assert p == q + [n];
    ChainCostSnoc(cost, q, n);
    if q != [] {
      assert Chain(g, q);
      TableBounds(g, cost, longest, q);
      assert p[|p| - 2] in g[n];
    } else if g[n] != [] {
      assert longest[FirstMax(g[n], longest)] >= 0.0;
    }
  }

  lemma {:induction false} EarlierInOrder(g: Graph, order: seq<Id>, d: Id, n: Id)
    requires Closed(g) && TopologicalOrder(g, order) && n in g && d in g[n]
    ensures d in order && n in order && Position(order, d) < Position(order, n)
  {
    assert n in Elems(order) && d in Elems(order);
    var p := [d, n];
    assert Chain(g, p);
    PlacedBoth(order, d, n);
    ChainClimbs(g, order, p);
  }

  lemma {:induction false} PlacedBoth(order: seq<Id>, d: Id, n: Id)
    requires d in Elems(order) && n in Elems(order)
    ensures forall i :: 0 <= i < 2 ==> [d, n][i] in order
  {
  }

  // d is the first of the costliest dependencies of n.
  ghost predicate Precedes(g: Graph, longest: map<Id, real>, d: Id, n: Id) {
    n in g && g[n] != [] && (forall e :: e in g[n] ==> e in longest) && d == FirstMax(g[n], longest)
  }

  ghost predicate Backward(g: Graph, longest: map<Id, real>, path: seq<Id>) {
    forall i {:trigger path[i]} :: 0 < i < |path| ==> Precedes(g, longest, path[i - 1], path[i])
  }

  lemma {:induction false} BackwardCons(g: Graph, longest: map<Id, real>, n: Id, path: seq<Id>)
    requires Backward(g, longest, path) && (path != [] ==> Precedes(g, longest, n, path[0]))
    ensures Backward(g, longest, [n] + path)
  {
    var p := [n] + path;
    forall i | 0 < i < |p|
      ensures Precedes(g, longest, p[i - 1], p[i])
    {
      assert p[i] == path[i - 1];
      if i > 1 {
        assert p[i - 1] == path[i - 2];
      }
    }
  }

  // Part of the way back: the path so far, and the task to put in front of it.
  ghost predicate Tracking(g: Graph, cost: map<Id, real>, longest: map<Id, real>, end: Id, path: seq<Id>,
      current: Option<Id>)
    requires cost.Keys == g.Keys == longest.Keys
  {
    && (if path == [] then current == Some(end) else Chain(g, path) && path[|path| - 1] == end)
    && (current.Some? ==> current.value in g && (path != [] ==> Precedes(g, longest, current.value, path[0])))
    && (current.None? ==> path != [] && g[path[0]] == [])
    && (forall n :: n in path ==> n in cost)
    && ChainCost(cost, path) + (if current.Some? then longest[current.value] else 0.0) == longest[end]
    && Backward(g, longest, path)
  }

  lemma {:induction false} TrackOne(g: Graph, cost: map<Id, real>, longest: map<Id, real>, end: Id, path: seq<Id>,
      n: Id)
    requires Closed(g) && cost.Keys == g.Keys == longest.Keys && Longest(g, cost, longest)
    requires Tracking(g, cost, longest, end, path, Some(n))
    ensures Tracking(g, cost, longest, end, [n] + path, if g[n] == [] then None else Some(FirstMax(g[n], longest)))
  {
    assert LongestAt(g, cost, longest, n);
    assert ([n] + path)[1..] == path;
    BackwardCons(g, longest, n, path);
    ChainCons(g, n, path);
  }

  lemma {:induction false} ChainCons(g: Graph, n: Id, path: seq<Id>)
    requires n in g && (path != [] ==> Chain(g, path) && n in g[path[0]])
    ensures Chain(g, [n] + path)
  {
  }

  // The chain read off the table, from its last task back to its first.
  method BackTrack(g: Graph, cost: map<Id, real>, longest: map<Id, real>, end: Id, ghost order: seq<Id>)
      returns (path: seq<Id>)
    requires Closed(g) && cost.Keys == g.Keys == longest.Keys && Longest(g, cost, longest) && end in g
    requires TopologicalOrder(g, order)
    ensures Chain(g, path) && g[path[0]] == [] && path[|path| - 1] == end
    ensures ChainCost(cost, path) == longest[end] && Backward(g, longest, path)
  {
    path := [];
    var current := Some(end);
    assert forall n :: n in g <==> n in Elems(order);
    while current.Some?
      invariant Tracking(g, cost, longest, end, path, current)
      decreases if current.Some? then 1 + Position(order, current.value) else 0
    {
      var n := current.value;
      TrackOne(g, cost, longest, end, path, n);
      path := [n] + path;
      if g[n] == [] {
        current := None;
      } else {
        current := Some(FirstMax(g[n], longest));
        EarlierInOrder(g, order, current.value, n);
      }
    }
  }

  // What critical_path returns: a chain from a dependency-free task that costs
  // exactly the total, which no chain from a dependency-free task exceeds; when no
  // cost is negative, no chain at all does.
  ghost predicate CriticalPath(g: Graph, cost: map<Id, real>, path: seq<Id>, total: real)
    requires cost.Keys == g.Keys
  {
    if g.Keys == {} then path == [] && total == 0.0
    else
      && Chain(g, path) && g[path[0]] == [] && ChainCost(cost, path) == total
      && forall p {:trigger Chain(g, p)} ::
        Chain(g, p) && (g[p[0]] == [] || NonNegative(cost)) ==> ChainCost(cost, p) <= total
  }

  method FindCriticalPath(g: Graph, cost: map<Id, real>, order: seq<Id>) returns (path: seq<Id>, total: real)
    requires Closed(g) && TopologicalOrder(g, order) && cost.Keys == g.Keys
    ensures CriticalPath(g, cost, path, total)
  {
    var longest := LongestTable(g, cost, order);
    assert forall n :: n in g <==> n in Elems(order);
    if order == [] {
      return [], 0.0;
    }
    var end := FirstMax(order, longest);
    path := BackTrack(g, cost, longest, end, order);
    total := longest[end];
    forall p | Chain(g, p) && (g[p[0]] == [] || NonNegative(cost))
      ensures ChainCost(cost, p) <= total
    {
      TableBounds(g, cost, longest, p);
      assert p[|p| - 1] in Elems(order);
    }
  }
}
