// ResearchPlan.get_ordered_objectives (src/cadgenesis/autonomous_research/planner.py):
// depth-first postorder over the objectives' dependencies.
module ResearchPlans {
  import opened Seqs
  import opened Graphs

  datatype Objective = Objective(objectiveId: Id, title: string, dependencies: seq<Id>)

  function IdsOf(os: seq<Objective>): (r: seq<Id>)
    ensures |r| == |os| && forall i :: 0 <= i < |os| ==> r[i] == os[i].objectiveId
  {
    seq(|os|, i requires 0 <= i < |os| => os[i].objectiveId)
  }

  // The objectives under their ids: the last one with an id wins.
  function ById(os: seq<Objective>): (m: map<Id, Objective>)
    ensures forall n {:trigger m[n]} :: n in m ==> m[n].objectiveId == n
  {
    if os == [] then map[]
    else
      var o := os[|os| - 1];
      ById(os[..|os| - 1])[o.objectiveId := o]
  }

  lemma {:induction false} LastWins(os: seq<Objective>, i: nat)
    requires i < |os| && forall j :: i < j < |os| ==> os[j].objectiveId != os[i].objectiveId
    ensures os[i].objectiveId in ById(os) && ById(os)[os[i].objectiveId] == os[i]
  {
    if i < |os| - 1 {
      LastWins(os[..|os| - 1], i);
    }
  }

  lemma {:induction false} ByIdKeys(os: seq<Objective>)
    ensures ById(os).Keys == Elems(IdsOf(os))
    ensures NoDup(IdsOf(os)) ==> forall i {:trigger os[i]} :: 0 <= i < |os| ==> ById(os)[os[i].objectiveId] == os[i]
  {
    if os != [] {
      var n := |os| - 1;
      ByIdKeys(os[..n]);
      assert IdsOf(os) == IdsOf(os[..n]) + [os[n].objectiveId];
      ElemsSnoc(IdsOf(os[..n]), os[n].objectiveId);
      NoDupSnoc(IdsOf(os[..n]), os[n].objectiveId);
      if NoDup(IdsOf(os)) {
        forall i | 0 <= i < n
          ensures ById(os)[os[i].objectiveId] == os[i]
        {
          assert os[..n][i] == os[i];
          NoDupAt(IdsOf(os), i, n);
        }
      }
    }
  }

  function Dependencies(m: map<Id, Objective>): Graph {
    map n | n in m :: m[n].dependencies
  }

  // ------------------------------------------------------------------
  // The recursion

  // The objectives being visited: each is a dependency of the one before it.
  ghost predicate Path(g: Graph, stack: seq<Id>) {
    forall i: nat {:trigger Linked(g, stack, i)} :: i < |stack| ==> Linked(g, stack, i)
  }

  ghost predicate Linked(g: Graph, stack: seq<Id>, i: nat)
    requires i < |stack|
  {
    stack[i] in g && (i > 0 ==> stack[i - 1] in g && stack[i] in g[stack[i - 1]])
  }

  // A dependency of the objective on top of the path that lies on the path closes a
  // cycle.
  lemma {:induction false} BackEdge(g: Graph, stack: seq<Id>, d: Id)
    requires Path(g, stack) && stack != [] && d in stack && stack[|stack| - 1] in g && d in g[stack[|stack| - 1]]
    ensures Cyclic(g)
  {
    var k :| 0 <= k < |stack| && stack[k] == d;
    var s := stack[k..];
    var m := |s|;
    var p := [d] + seq(m, i requires 0 <= i < m => s[m - 1 - i]);
    forall i: nat | i < |s|
      ensures s[i] in g && (i > 0 ==> s[i - 1] in g && s[i] in g[s[i - 1]])
    {
      assert Linked(g, stack, k + i);
    }
    assert Chain(g, p) && p[0] == p[|p| - 1];
  }

  ghost predicate Keyed(m: map<Id, Objective>) {
    forall k {:trigger m[k]} :: k in m ==> m[k].objectiveId == k
  }

  // The objectives are those registered under their ids.
  ghost predicate Registered(m: map<Id, Objective>, ordered: seq<Objective>) {
    forall i {:trigger ordered[i]} ::
      0 <= i < |ordered| ==> ordered[i].objectiveId in m && m[ordered[i].objectiveId] == ordered[i]
  }

  // Where the recursion stands: the visited objectives are those already ordered
  // and those on the path; without cycles the order respects dependencies.
  ghost predicate Standing(m: map<Id, Objective>, visited: set<Id>, ordered: seq<Objective>, stack: seq<Id>) {
    var g, ids := Dependencies(m), IdsOf(ordered);
    && Path(g, stack) && NoDup(ids) && Keyed(m)
    && visited * g.Keys == Elems(ids) + Elems(stack) && Elems(ids) !! Elems(stack)
    && Registered(m, ordered)
    && (!Cyclic(g) ==> Respects(g, ids))
  }

  // An objective comes off the path once its in-plan dependencies have been visited.
  lemma {:induction false} Leave(m: map<Id, Objective>, visited: set<Id>, ordered: seq<Objective>, stack: seq<Id>,
      n: Id)
    requires Standing(m, visited, ordered, stack + [n]) && n !in stack && n in m
    requires Elems(m[n].dependencies) <= visited
    ensures Standing(m, visited, ordered + [m[n]], stack)
  {
    var g, ids := Dependencies(m), IdsOf(ordered);
    assert (stack + [n])[|stack|] == n;
    ElemsSnoc(stack, n);
    IdsSnoc(ordered, m[n]);
    assert m[n].objectiveId == n;
    assert n in Elems(stack + [n]) && n !in Elems(ids);
    NoDupSnoc(ids, n);
    assert NoDup(ids + [n]);
    assert Elems(stack) == Elems(stack + [n]) - {n};
    ShorterPath(g, stack, n);
    if !Cyclic(g) {
      forall d | d in g[n] && d in g
        ensures d in ids
      {
        assert d in Elems(m[n].dependencies);
        assert d in visited * g.Keys;
        if d in Elems(stack + [n]) {
          BackEdge(g, stack + [n], d);
        }
        assert d in Elems(ids);
      }
      RespectsSnoc(g, ids, n);
    }
  }

  lemma {:induction false} IdsSnoc(ordered: seq<Objective>, o: Objective)
    ensures IdsOf(ordered + [o]) == IdsOf(ordered) + [o.objectiveId]
    ensures Elems(IdsOf(ordered + [o])) == Elems(IdsOf(ordered)) + {o.objectiveId}
  {
    assert IdsOf(ordered + [o]) == IdsOf(ordered) + [o.objectiveId];
    ElemsSnoc(IdsOf(ordered), o.objectiveId);
  }

  lemma {:induction false} ShorterPath(g: Graph, stack: seq<Id>, n: Id)
    requires Path(g, stack + [n])
    ensures Path(g, stack)
  {
    forall i: nat | i < |stack|
      ensures Linked(g, stack, i)
    {
      assert Linked(g, stack + [n], i);
    }
  }

  lemma {:induction false} LongerPath(m: map<Id, Objective>, stack: seq<Id>, n: Id)
    requires Path(Dependencies(m), stack) && Listed(m, stack, n) && n in m
    ensures Path(Dependencies(m), stack + [n])
  {
    forall i: nat | i < |stack| + 1
      ensures Linked(Dependencies(m), stack + [n], i)
    {
      assert i < |stack| ==> Linked(Dependencies(m), stack, i);
      assert i == |stack| > 0 ==> Linked(Dependencies(m), stack, i - 1);
    }
  }

  lemma {:induction false} RespectsSnoc(g: Graph, ids: seq<Id>, n: Id)
    requires Respects(g, ids) && n in g && forall d :: d in g[n] && d in g ==> d in ids
    ensures Respects(g, ids + [n])
  {
    var s := ids + [n];
    forall i: nat | i < |s|
      ensures Follows(g, s, i)
    {
      if i < |ids| {
        assert Follows(g, ids, i);
        assert s[..i] == ids[..i];
      } else {
        assert s[..i] == ids;
      }
    }
  }

  lemma {:induction false} Enter(m: map<Id, Objective>, visited: set<Id>, ordered: seq<Objective>, stack: seq<Id>,
      n: Id)
    requires Standing(m, visited, ordered, stack) && n !in visited
    requires Listed(m, stack, n)
    ensures n in m ==> Standing(m, visited + {n}, ordered, stack + [n])
    ensures n !in m ==> Standing(m, visited + {n}, ordered, stack)
    ensures n in m ==> n !in stack
  {
    var g := Dependencies(m);
    if n in m {
      LongerPath(m, stack, n);
      ElemsSnoc(stack, n);
      assert n !in Elems(IdsOf(ordered)) && n !in Elems(stack);
      assert (visited + {n}) * g.Keys == visited * g.Keys + {n};
    } else {
      assert (visited + {n}) * g.Keys == visited * g.Keys;
    }
  }

  // The variables captured by the nested function.
  class Ordering {
    const objects: map<Id, Objective>
    var visited: set<Id>
    var ordered: seq<Objective>

    constructor (objects: map<Id, Objective>)
      ensures this.objects == objects && visited == {} && ordered == []
    {
      this.objects, visited, ordered := objects, {}, [];
    }

    // visit.  `room` holds every id that can be reached: what is left of it bounds
    // the recursion even when dependencies are cyclic.
    method Visit(n: Id, ghost stack: seq<Id>, ghost room: set<Id>)
      requires Standing(objects, visited, ordered, stack) && Listed(objects, stack, n)
      requires n in room && visited <= room && Roomy(objects, room)
      modifies this`visited, this`ordered
      ensures Standing(objects, visited, ordered, stack)
      ensures n in visited && old(visited) <= visited <= room
      decreases room - visited, 0
    {
      if n in visited {
        return;
      }
      Enter(objects, visited, ordered, stack, n);
      visited := visited + {n};
      if n in objects {
        VisitAll(objects[n].dependencies, n, stack, room);
        Leave(objects, visited, ordered, stack, n);
        ordered := ordered + [objects[n]];
      }
    }

    // Where the loop over the dependencies of n stands after the first i.
    ghost predicate Looping(deps: seq<Id>, i: nat, n: Id, stack: seq<Id>, room: set<Id>)
      reads this
    {
      && i <= |deps| && n in objects && deps == objects[n].dependencies
      && Standing(objects, visited, ordered, stack + [n]) && Roomy(objects, room)
      && visited <= room && Elems(deps[..i]) <= visited
    }

    // The loop over the dependencies of the objective being visited.
    method VisitAll(deps: seq<Id>, n: Id, ghost stack: seq<Id>, ghost room: set<Id>)
      requires Looping(deps, 0, n, stack, room)
      modifies this`visited, this`ordered
      ensures Standing(objects, visited, ordered, stack + [n])
      ensures old(visited) <= visited <= room && Elems(deps) <= visited
      decreases room - visited, 2
    {
      var i := 0;
      while i < |deps|
        invariant Looping(deps, i, n, stack, room) && old(visited) <= visited
      {
        VisitNext(deps, i, n, stack, room);
        i := i + 1;
      }
      assert deps[..|deps|] == deps;
    }

    method VisitNext(deps: seq<Id>, i: nat, n: Id, ghost stack: seq<Id>, ghost room: set<Id>)
      requires i < |deps| && Looping(deps, i, n, stack, room)
      modifies this`visited, this`ordered
      ensures Looping(deps, i + 1, n, stack, room) && old(visited) <= visited
      decreases room - visited, 1
    {
      NextDependency(deps, i);
      assert Reaches(objects, room, n);
      Visit(deps[i], stack + [n], room);
    }
  }

  lemma {:induction false} NextDependency(deps: seq<Id>, i: nat)
    requires i < |deps|
    ensures deps[i] in Elems(deps) && Elems(deps[..i + 1]) == Elems(deps[..i]) + {deps[i]}
  {
    assert deps[..i + 1] == deps[..i] + [deps[i]];
    ElemsSnoc(deps[..i], deps[i]);
  }

  ghost predicate Listed(m: map<Id, Objective>, stack: seq<Id>, n: Id) {
    stack != [] ==> stack[|stack| - 1] in m && n in m[stack[|stack| - 1]].dependencies
  }

  ghost predicate Reaches(m: map<Id, Objective>, room: set<Id>, k: Id)
    requires k in m
  {
    Elems(m[k].dependencies) <= room
  }

  ghost predicate Roomy(m: map<Id, Objective>, room: set<Id>) {
    forall k {:trigger Reaches(m, room, k)} :: k in m ==> Reaches(m, room, k)
  }

  // get_ordered_objectives: each id of the plan once, with the objective registered
  // under it, even when dependencies are cyclic; a topological order exactly when
  // they are not.
  method GetOrderedObjectives(objectives: seq<Objective>) returns (r: seq<Objective>)
    ensures NoDup(IdsOf(r)) && Elems(IdsOf(r)) == ById(objectives).Keys
    ensures Registered(ById(objectives), r)
    ensures TopologicalOrder(Dependencies(ById(objectives)), IdsOf(r)) <==> !Cyclic(Dependencies(ById(objectives)))
  {
    var m := ById(objectives);
    ghost var room := Room(objectives, m);
    Starting(objectives, m);
    var state := new Ordering(m);
    var i := 0;
    while i < |objectives|
      invariant 0 <= i <= |objectives| && state.objects == m
      invariant Standing(m, state.visited, state.ordered, []) && state.visited <= room
      invariant Elems(IdsOf(objectives[..i])) <= state.visited
    {
      NextObjective(objectives, m, i);
      state.Visit(objectives[i].objectiveId, [], room);
      i := i + 1;
    }
    r := state.ordered;
    assert objectives[..|objectives|] == objectives;
    AllVisited(objectives, state.visited, r);
  }

  // Every id that can be visited.
  ghost function Room(objectives: seq<Objective>, m: map<Id, Objective>): set<Id> {
    Elems(IdsOf(objectives)) + set n, d | n in m && d in m[n].dependencies :: d
  }

  lemma {:induction false} Starting(objectives: seq<Objective>, m: map<Id, Objective>)
    requires m == ById(objectives)
    ensures Standing(m, {}, [], []) && Roomy(m, Room(objectives, m)) && Elems(IdsOf([])) == {}
  {
    ByIdKeys(objectives);
    forall k | k in m
      ensures Reaches(m, Room(objectives, m), k)
    {
      forall d | d in m[k].dependencies
        ensures d in Room(objectives, m)
      {
        assert d in (set n, e | n in m && e in m[n].dependencies :: e);
      }
    }
  }

  lemma {:induction false} NextObjective(objectives: seq<Objective>, m: map<Id, Objective>, i: nat)
    requires i < |objectives|
    ensures Elems(IdsOf(objectives[..i + 1])) == Elems(IdsOf(objectives[..i])) + {objectives[i].objectiveId}
    ensures objectives[i].objectiveId in Room(objectives, m)
  {
    assert objectives[..i + 1] == objectives[..i] + [objectives[i]];
    IdsSnoc(objectives[..i], objectives[i]);
    assert IdsOf(objectives)[i] in Elems(IdsOf(objectives));
  }

  lemma {:induction false} AllVisited(objectives: seq<Objective>, visited: set<Id>, r: seq<Objective>)
    requires Standing(ById(objectives), visited, r, []) && Elems(IdsOf(objectives)) <= visited
    ensures Elems(IdsOf(r)) == ById(objectives).Keys
    ensures TopologicalOrder(Dependencies(ById(objectives)), IdsOf(r)) <==> !Cyclic(Dependencies(ById(objectives)))
  {
    var m := ById(objectives);
    ByIdKeys(objectives);
    assert Dependencies(m).Keys == m.Keys && Elems<Id>([]) == {};
    assert visited * m.Keys == m.Keys;
    if TopologicalOrder(Dependencies(m), IdsOf(r)) {
      OrderedMeansAcyclic(Dependencies(m), IdsOf(r));
    }
  }

  // With unique ids the result is a permutation of the plan's objectives.
  lemma {:induction false} OrderedIsPermutation(objectives: seq<Objective>, r: seq<Objective>)
    requires NoDup(IdsOf(objectives)) && NoDup(IdsOf(r)) && Elems(IdsOf(r)) == ById(objectives).Keys
    requires Registered(ById(objectives), r)
    ensures multiset(r) == multiset(objectives)
  {
    var m := ById(objectives);
    ByIdKeys(objectives);
    ObjectsDiffer(objectives);
    ObjectsDiffer(r);
    forall o
      ensures multiset(r)[o] == multiset(objectives)[o]
    {
      NoDupCount(r, o);
      NoDupCount(objectives, o);
      if o in r {
        var i :| 0 <= i < |r| && r[i] == o;
        FoundIn(objectives, o.objectiveId);
      }
      if o in objectives {
        var i :| 0 <= i < |objectives| && objectives[i] == o;
        assert IdsOf(objectives)[i] in Elems(IdsOf(objectives));
        assert o.objectiveId in Elems(IdsOf(r));
        var j :| 0 <= j < |r| && IdsOf(r)[j] == o.objectiveId;
        assert r[j] == m[o.objectiveId] == objectives[i];
      }
    }
  }

  lemma {:induction false} FoundIn(objectives: seq<Objective>, n: Id)
    requires NoDup(IdsOf(objectives)) && n in ById(objectives)
    ensures ById(objectives)[n] in objectives
  {
    ByIdKeys(objectives);
    assert n in Elems(IdsOf(objectives));
    var i :| 0 <= i < |objectives| && IdsOf(objectives)[i] == n;
    assert ById(objectives)[objectives[i].objectiveId] == objectives[i];
  }

  lemma {:induction false} ObjectsDiffer(os: seq<Objective>)
    requires NoDup(IdsOf(os))
    ensures NoDup(os)
  {
    forall i: nat, j: nat | i < j < |os|
      ensures Differ(os, i, j)
    {
      NoDupAt(IdsOf(os), i, j);
    }
  }
}
