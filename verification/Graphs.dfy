// Dependency graphs: each task id is mapped to the ids it depends on, in the
// order the source lists them.  Acyclicity, dependency chains, topological
// orders and the depth of a task are defined here once, and every scheduler of
// the repository is measured against these definitions.
module Graphs {
  import opened Seqs

  // A task id; ids are ordered as Python orders their names.
  datatype Id = Id(name: string)

  type Graph = map<Id, seq<Id>>

  // Every listed dependency is itself a task of the graph.
  predicate Closed(g: Graph) {
    forall n :: n in g ==> forall d :: d in g[n] ==> d in g
  }

  // No dependency is listed twice.
  ghost predicate DupFree(g: Graph) {
    forall n :: n in g ==> NoDup(g[n])
  }

  // Each task of a chain is a dependency of the one that follows it.
  ghost predicate Chain(g: Graph, p: seq<Id>) {
    && p != []
    && (forall i :: 0 <= i < |p| ==> p[i] in g)
    && (forall i, j {:trigger p[i], p[j]} :: 0 <= i && j == i + 1 && j < |p| ==> p[i] in g[p[j]])
  }

  ghost predicate Cyclic(g: Graph) {
    exists p :: Chain(g, p) && |p| >= 2 && p[0] == p[|p| - 1]
  }

  // Entry i is a task all of whose in-graph dependencies occur earlier.
  ghost predicate Follows(g: Graph, s: seq<Id>, i: nat)
    requires i < |s|
  {
    s[i] in g && forall d :: d in g[s[i]] && d in g ==> d in s[..i]
  }

  ghost predicate Respects(g: Graph, s: seq<Id>) {
    forall i: nat {:trigger Follows(g, s, i)} :: i < |s| ==> Follows(g, s, i)
  }

  // Entry i is a task all of whose listed dependencies occur earlier.
  ghost predicate FollowsAll(g: Graph, s: seq<Id>, i: nat)
    requires i < |s|
  {
    s[i] in g && forall d :: d in g[s[i]] ==> d in s[..i]
  }

  ghost predicate Placed(g: Graph, s: seq<Id>) {
    forall i: nat {:trigger FollowsAll(g, s, i)} :: i < |s| ==> FollowsAll(g, s, i)
  }

  lemma {:induction false} PlacedInside(g: Graph, s: seq<Id>)
    requires Placed(g, s)
    ensures Elems(s) <= g.Keys && Respects(g, s)
  {
    forall n | n in s
      ensures n in g
    {
      var i :| 0 <= i < |s| && s[i] == n;
      assert FollowsAll(g, s, i);
    }
    forall i: nat | i < |s|
      ensures Follows(g, s, i)
    {
      assert FollowsAll(g, s, i);
    }
  }

  ghost predicate TopologicalOrder(g: Graph, s: seq<Id>) {
    NoDup(s) && Elems(s) == g.Keys && Respects(g, s)
  }

  // ------------------------------------------------------------------
  // Cycles against orders

  function Position(s: seq<Id>, x: Id): (k: nat)
    requires x in s
    ensures k < |s| && s[k] == x
  {
    if s[0] == x then 0 else 1 + Position(s[1..], x)
  }

  lemma {:induction false} ChainClimbs(g: Graph, s: seq<Id>, p: seq<Id>)
    requires NoDup(s) && Respects(g, s) && Chain(g, p)
    requires forall i :: 0 <= i < |p| ==> p[i] in s
    ensures Position(s, p[0]) + |p| - 1 <= Position(s, p[|p| - 1])
  {
    if |p| > 1 {
      var q := p[..|p| - 1];
      assert Chain(g, q);
      ChainClimbs(g, s, q);
      var a, b := p[|p| - 2], p[|p| - 1];
      assert Follows(g, s, Position(s, b));
      assert a in s[..Position(s, b)];
      var i :| 0 <= i < Position(s, b) && s[i] == a;
      NoDupAt(s, i, Position(s, a));
    }
  }

  lemma {:induction false} OrderedMeansAcyclic(g: Graph, s: seq<Id>)
    requires TopologicalOrder(g, s)
    ensures !Cyclic(g)
  {
    if p :| Chain(g, p) && |p| >= 2 && p[0] == p[|p| - 1] {
      assert forall i :: 0 <= i < |p| ==> p[i] in Elems(s);
      ChainClimbs(g, s, p);
    }
  }

  // Task n lists a dependency lying in the set.
  ghost predicate WaitsOn(g: Graph, n: Id, rest: set<Id>)
    requires n in g
  {
    exists d :: d in g[n] && d in rest
  }

  // Walking backwards inside a set of tasks that all wait on each other.
  lemma {:induction false} WalkBack(g: Graph, rest: set<Id>, last: Id, k: nat) returns (p: seq<Id>)
    requires rest <= g.Keys && last in rest
    requires forall n {:trigger WaitsOn(g, n, rest)} :: n in rest ==> WaitsOn(g, n, rest)
    ensures |p| == k + 1 && Chain(g, p) && p[|p| - 1] == last && Elems(p) <= rest
    decreases k
  {
    if k == 0 {
      p := [last];
    } else {
      assert WaitsOn(g, last, rest);
      var d :| d in g[last] && d in rest;
      var q := WalkBack(g, rest, d, k - 1);
      p := q + [last];
      ElemsSnoc(q, last);
    }
  }

  // If every task of a non-empty set waits on another of the set, there is a cycle.
  lemma {:induction false} StuckMeansCyclic(g: Graph, rest: set<Id>)
    requires rest != {} && rest <= g.Keys
    requires forall n {:trigger WaitsOn(g, n, rest)} :: n in rest ==> WaitsOn(g, n, rest)
    ensures Cyclic(g)
  {
    var last :| last in rest;
    var p := WalkBack(g, rest, last, |rest|);
    Pigeonhole(p, rest);
    var i, j :| 0 <= i < j < |p| && p[i] == p[j];
    var q := p[i..j + 1];
    assert Chain(g, q) && |q| >= 2 && q[0] == q[|q| - 1];
  }

  // Task n lists a dependency that the sequence does not hold.
  ghost predicate Stuck(g: Graph, n: Id, s: seq<Id>)
    requires n in g
  {
    exists d :: d in g[n] && d !in s
  }

  // A duplicate-free prefix whose entries all follow everything they list,
  // and that has left out only tasks waiting on something outside the prefix.
  ghost predicate Exhausted(g: Graph, s: seq<Id>) {
    && NoDup(s) && Placed(g, s)
    && (forall n {:trigger Stuck(g, n, s)} :: n in g && n !in s ==> Stuck(g, n, s))
  }

  // What Kahn's algorithm decides: it placed every task exactly when the graph
  // is closed and acyclic, and then what it placed is a topological order.
  lemma {:induction false} ExhaustedDecides(g: Graph, s: seq<Id>)
    requires Exhausted(g, s)
    ensures |s| == |g| <==> Closed(g) && !Cyclic(g)
    ensures |s| == |g| ==> TopologicalOrder(g, s)
  {
    CardElems(s);
    PlacedInside(g, s);
    SubsetCard(Elems(s), g.Keys);
    assert |g| == |g.Keys|;
    if |s| == |g| {
      assert Elems(s) == g.Keys;
      OrderedMeansAcyclic(g, s);
      forall n | n in g
        ensures forall d :: d in g[n] ==> d in g
      {
        assert n in Elems(s);
        var i :| 0 <= i < |s| && s[i] == n;
        assert FollowsAll(g, s, i);
      }
    } else if Closed(g) {
      var rest := g.Keys - Elems(s);
      assert |Elems(s)| != |g.Keys|;
      assert Elems(s) != g.Keys;
      assert !(g.Keys <= Elems(s));
      var n :| n in g.Keys && n !in Elems(s);
      assert n in rest;
      forall n | n in rest
        ensures WaitsOn(g, n, rest)
      {
        assert Stuck(g, n, s);
        var d :| d in g[n] && d !in s;
        assert d in rest;
      }
      StuckMeansCyclic(g, rest);
    }
  }

  lemma {:induction false} PlacedSnoc(g: Graph, done: seq<Id>, n: Id)
    requires NoDup(done) && Placed(g, done) && n in g && n !in done && Elems(g[n]) <= Elems(done)
    ensures NoDup(done + [n]) && Placed(g, done + [n]) && Elems(done + [n]) == Elems(done) + {n}
  {
    ElemsSnoc(done, n);
    NoDupSnoc(done, n);
    var s := done + [n];
    forall i: nat | i < |s|
      ensures FollowsAll(g, s, i)
    {
      if i < |done| {
        assert FollowsAll(g, done, i);
        assert s[..i] == done[..i] && s[i] == done[i];
      } else {
        assert s[..i] == done;
        forall d | d in g[n]
          ensures d in done
        {
          assert d in Elems(g[n]);
        }
      }
    }
  }

  lemma {:induction false} ExtendToOrder(g: Graph, s: seq<Id>) returns (o: seq<Id>)
    requires Closed(g) && !Cyclic(g) && NoDup(s) && Placed(g, s)
    ensures TopologicalOrder(g, o)
    decreases g.Keys - Elems(s)
  {
    PlacedInside(g, s);
    var rest := g.Keys - Elems(s);
    if rest == {} {
      assert forall n :: n in g.Keys ==> n !in rest;
      o := s;
    } else if n :| n in rest && !WaitsOn(g, n, rest) {
      forall d | d in Elems(g[n])
        ensures d in Elems(s)
      {
        assert d !in rest;
      }
      PlacedSnoc(g, s, n);
      o := ExtendToOrder(g, s + [n]);
    } else {
      StuckMeansCyclic(g, rest);
      o := s;
    }
  }

  // A closed graph has a topological order exactly when it has no cycle.
  lemma {:induction false} AcyclicIffOrder(g: Graph)
    requires Closed(g)
    ensures !Cyclic(g) <==> exists s :: TopologicalOrder(g, s)
  {
    if !Cyclic(g) {
      var o := ExtendToOrder(g, []);
    } else if s :| TopologicalOrder(g, s) {
      OrderedMeansAcyclic(g, s);
    }
  }

  // ------------------------------------------------------------------
  // Python's string order (by code point) and the order it induces on orders

  predicate StrLeq(a: string, b: string) {
    a == [] || (b != [] && (a[0] < b[0] || (a[0] == b[0] && StrLeq(a[1..], b[1..]))))
  }

  lemma {:induction false} StrTotal(a: string, b: string)
    ensures StrLeq(a, b) || StrLeq(b, a)
  {
    if a != [] && b != [] {
      StrTotal(a[1..], b[1..]);
    }
  }

  lemma {:induction false} StrAntisym(a: string, b: string)
    requires StrLeq(a, b) && StrLeq(b, a)
    ensures a == b
  {
    if a != [] {
      StrAntisym(a[1..], b[1..]);
      assert a == [a[0]] + a[1..] && b == [b[0]] + b[1..];
    }
  }

  lemma {:induction false} StrTrans(a: string, b: string, c: string)
    requires StrLeq(a, b) && StrLeq(b, c)
    ensures StrLeq(a, c)
  {
    if a != [] && a[0] == b[0] == c[0] {
      StrTrans(a[1..], b[1..], c[1..]);
    }
  }

  // One text is before another when it is its beginning, or has the smaller character
  // where they first differ.
  lemma {:induction false} StrLeqExactly(a: string, b: string)
    ensures StrLeq(a, b) <==> a <= b || exists k: nat {:trigger Smaller(a, b, k)} :: Smaller(a, b, k)
  {
    if a != [] && b != [] && a[0] == b[0] {
      StrLeqExactly(a[1..], b[1..]);
      assert a == [a[0]] + a[1..] && b == [b[0]] + b[1..];
      if k: nat :| Smaller(a[1..], b[1..], k) {
        assert a[..k + 1] == [a[0]] + a[1..][..k] && b[..k + 1] == [b[0]] + b[1..][..k];
        assert Smaller(a, b, k + 1);
      }
      if k: nat :| Smaller(a, b, k) {
        assert k > 0;
        assert a[1..][..k - 1] == a[..k][1..] && b[1..][..k - 1] == b[..k][1..];
        assert Smaller(a[1..], b[1..], k - 1);
      }
    } else if a != [] && b != [] {
      assert Smaller(a, b, 0) || Smaller(b, a, 0);
      if k: nat :| Smaller(a, b, k) && k > 0 {
        SameStart(a, b, k);
      }
    }
  }

  lemma {:induction false} SameStart(a: string, b: string, k: nat)
    requires Smaller(a, b, k) && k > 0
    ensures a[0] == b[0]
  {
    assert a[0] == a[..k][0] && b[0] == b[..k][0];
  }

  ghost predicate Smaller(a: string, b: string, k: nat) {
    k < |a| && k < |b| && a[..k] == b[..k] && (a[k] as int) < b[k] as int
  }

  predicate IdLeq(a: Id, b: Id) {
    StrLeq(a.name, b.name)
  }

  ghost predicate IdLess(a: Id, b: Id) {
    IdLeq(a, b) && a != b
  }

  // a comes strictly before b, compared entry by entry.
  ghost predicate LexBefore(a: seq<Id>, b: seq<Id>) {
    exists i :: 0 <= i < |a| && i < |b| && a[..i] == b[..i] && IdLess(a[i], b[i])
  }

  // The order topological_order promises: no other topological order is smaller.
  ghost predicate LeastOrder(g: Graph, o: seq<Id>) {
    TopologicalOrder(g, o) && forall s :: TopologicalOrder(g, s) ==> s == o || LexBefore(o, s)
  }

  // There is only one such order.
  lemma {:induction false} LeastOrderUnique(g: Graph, o: seq<Id>, s: seq<Id>)
    requires LeastOrder(g, o) && LeastOrder(g, s)
    ensures o == s
  {
    if o != s {
      var i :| 0 <= i < |o| && i < |s| && o[..i] == s[..i] && IdLess(o[i], s[i]);
      var j :| 0 <= j < |s| && j < |o| && s[..j] == o[..j] && IdLess(s[j], o[j]);
      if i < j {
        PrefixAt(o, s, j, i);
      } else if j < i {
        PrefixAt(o, s, i, j);
      } else {
        StrAntisym(o[i].name, s[i].name);
      }
    }
  }

  lemma {:induction false} PrefixAt(o: seq<Id>, s: seq<Id>, n: nat, i: nat)
    requires i < n <= |o| && n <= |s| && o[..n] == s[..n]
    ensures o[i] == s[i]
  {
    assert o[..n][i] == s[..n][i];
  }

  lemma {:induction false} IdOrder(s: seq<Id>)
    ensures TotalOn(IdLeq, s)
  {
    forall x: Id, y: Id
      ensures IdLeq(x, y) || IdLeq(y, x)
    {
      StrTotal(x.name, y.name);
    }
    forall x: Id, y: Id, z: Id | IdLeq(x, y) && IdLeq(y, z)
      ensures IdLeq(x, z)
    {
      StrTrans(x.name, y.name, z.name);
    }
  }

  // ------------------------------------------------------------------
  // Depth: the number of tasks on the longest chain ending at a task

  function MaxOf(ds: seq<Id>, w: map<Id, nat>): (m: nat)
    requires forall d :: d in ds ==> d in w
    ensures forall d :: d in ds ==> w[d] <= m
    ensures ds == [] ==> m == 0
    ensures ds != [] ==> exists d :: d in ds && w[d] == m
  {
    if ds == [] then 0
    else
      var m := MaxOf(ds[1..], w);
      assert ds == [ds[0]] + ds[1..];
      if m < w[ds[0]] then w[ds[0]]
      else if ds[1..] == [] then w[ds[0]] else m
  }

  ghost predicate IsDepth(g: Graph, w: map<Id, nat>)
    requires Closed(g)
  {
    w.Keys == g.Keys && forall n {:trigger MaxOf(g[n], w)} :: n in g ==> w[n] == 1 + MaxOf(g[n], w)
  }

  ghost predicate DepthOn(g: Graph, w: map<Id, nat>, n: Id)
    requires n in g && n in w
  {
    (forall d :: d in g[n] ==> d in w) && w[n] == 1 + MaxOf(g[n], w)
  }

  ghost predicate PartialDepth(g: Graph, w: map<Id, nat>) {
    w.Keys <= g.Keys && forall n {:trigger DepthOn(g, w, n)} :: n in w ==> DepthOn(g, w, n)
  }

  lemma {:induction false} DepthExtends(g: Graph, v: map<Id, nat>, n: Id)
    requires PartialDepth(g, v) && n in g && n !in v
    requires forall d :: d in g[n] ==> d in v
    ensures PartialDepth(g, v[n := 1 + MaxOf(g[n], v)])
  {
    var w := v[n := 1 + MaxOf(g[n], v)];
    forall m | m in w
      ensures DepthOn(g, w, m)
    {
      if m != n {
        assert DepthOn(g, v, m);
      }
      MaxOfFrame(g[m], v, w);
    }
  }

  lemma {:induction false} DepthExists(g: Graph, s: seq<Id>, k: nat) returns (w: map<Id, nat>)
    requires Closed(g) && TopologicalOrder(g, s) && k <= |s|
    ensures PartialDepth(g, w) && w.Keys == Elems(s[..k])
  {
    if k == 0 {
      w := map[];
    } else {
      var v := DepthExists(g, s, k - 1);
      var n := s[k - 1];
      assert Follows(g, s, k - 1);
      NoDupCut(s, 0, k - 1);
      assert n in g && n !in s[..k - 1];
      assert s[..k] == s[..k - 1] + [n];
      ElemsSnoc(s[..k - 1], n);
      assert forall d :: d in g[n] ==> d in Elems(s[..k - 1]);
      DepthExtends(g, v, n);
      w := v[n := 1 + MaxOf(g[n], v)];
    }
  }

  lemma {:induction false} MaxOfFrame(ds: seq<Id>, v: map<Id, nat>, w: map<Id, nat>)
    requires forall d :: d in ds ==> d in v && d in w && v[d] == w[d]
    ensures MaxOf(ds, v) == MaxOf(ds, w)
  {
    if ds != [] {
      MaxOfFrame(ds[1..], v, w);
    }
  }

  // The depth table of an acyclic graph.
  ghost function Depth(g: Graph): (w: map<Id, nat>)
    requires Closed(g) && exists s :: TopologicalOrder(g, s)
    ensures IsDepth(g, w)
  {
    var s :| TopologicalOrder(g, s);
    assert exists v :: IsDepth(g, v) by {
      var v := DepthExists(g, s, |s|);
      assert s[..|s|] == s;
      forall n | n in g
        ensures v[n] == 1 + MaxOf(g[n], v)
      {
        assert DepthOn(g, v, n);
      }
      assert IsDepth(g, v);
    }
    var w :| IsDepth(g, w);
    w
  }

  // A depth is attained by a chain ending at the task, and no chain is longer.
  lemma {:induction false} DepthAttained(g: Graph, w: map<Id, nat>, n: Id) returns (p: seq<Id>)
    requires Closed(g) && IsDepth(g, w) && n in g
    ensures Chain(g, p) && p[|p| - 1] == n && |p| == w[n]
    decreases w[n]
  {
    assert w[n] == 1 + MaxOf(g[n], w);
    if g[n] == [] {
      p := [n];
    } else {
      var d :| d in g[n] && w[d] == MaxOf(g[n], w);
      var q := DepthAttained(g, w, d);
      p := q + [n];
    }
  }

  lemma {:induction false} DepthBounds(g: Graph, w: map<Id, nat>, p: seq<Id>)
    requires Closed(g) && IsDepth(g, w) && Chain(g, p)
    ensures |p| <= w[p[|p| - 1]]
  {
    assert w[p[|p| - 1]] == 1 + MaxOf(g[p[|p| - 1]], w);
    if |p| > 1 {
      var q := p[..|p| - 1];
      assert Chain(g, q);
      DepthBounds(g, w, q);
      assert p[|p| - 2] in g[p[|p| - 1]];
    }
  }
}
