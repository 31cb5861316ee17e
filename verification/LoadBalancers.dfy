// LoadBalancer (src/cadgenesis/agents/scheduling.py): tasks by descending cost, each
// to the worker least loaded so far.
module LoadBalancers {
  import opened Results
  import opened Seqs
  import opened TaskGraphs
  import opened LoadBounds

  function Cost(t: TaskNode): real {
    t.cost
  }

  predicate CostlierFirst(a: TaskNode, b: TaskNode) {
    a.cost >= b.cost
  }

  // The tasks given to one worker, in the order they were assigned.
  function Share<T>(s: seq<T>, a: seq<nat>, w: nat): seq<T>
    requires |a| == |s|
  {
    if s == [] then []
    else
      var n := |s| - 1;
      Share(s[..n], a[..n], w) + if a[n] == w then [s[n]] else []
  }

  // Every task handed out, with its multiplicity.
  function TasksOf<T>(shares: seq<seq<T>>): multiset<T> {
    if shares == [] then multiset{} else TasksOf(shares[..|shares| - 1]) + multiset(shares[|shares| - 1])
  }

  lemma {:induction false} HandOut<T>(shares: seq<seq<T>>, w: nat, x: T)
    requires w < |shares|
    ensures TasksOf(shares[w := shares[w] + [x]]) == TasksOf(shares) + multiset{x}
  {
    var k := |shares| - 1;
    var after := shares[w := shares[w] + [x]];
    if w == k {
      assert after[..k] == shares[..k];
    } else {
      HandOut(shares[..k], w, x);
      assert after[..k] == shares[..k][w := shares[..k][w] + [x]];
    }
  }

  lemma {:induction false} NothingHandedOut<T>(m: nat)
    ensures TasksOf(seq<seq<T>>(m, _ => [])) == multiset{}
  {
    if m > 0 {
      NothingHandedOut<T>(m - 1);
      assert seq<seq<T>>(m, _ => [])[..m - 1] == seq<seq<T>>(m - 1, _ => []);
    }
  }

  // Costlier tasks come first, and distinct ones of one cost in the order they came in.
  ghost predicate ByCost(tasks: seq<TaskNode>, s: seq<TaskNode>) {
    multiset(s) == multiset(tasks) && forall i: nat, j: nat {:trigger CostPair(tasks, s, i, j)} ::
      i < j < |s| ==> CostPair(tasks, s, i, j)
  }

  ghost predicate CostPair(tasks: seq<TaskNode>, s: seq<TaskNode>, i: nat, j: nat)
    requires i < j < |s|
  {
    s[i].cost > s[j].cost || (s[i].cost == s[j].cost && (NoDup(tasks) ==> Ahead(tasks, s[i], s[j])))
  }

  // The order in which assign takes the tasks.
  lemma {:induction false} SortedByCost(tasks: seq<TaskNode>)
    ensures ByCost(tasks, Sort(CostlierFirst, tasks))
  {
    var s := Sort(CostlierFirst, tasks);
    SortSorts(CostlierFirst, tasks);
    SameElems(s, tasks);
    forall i: nat, j: nat | i < j < |s|
      ensures CostPair(tasks, s, i, j)
    {
      assert CostlierFirst(s[i], s[j]);
      AheadIn(s, i, j);
      if s[i].cost == s[j].cost && NoDup(tasks) {
        NoDupAt(s, i, j);
        SortTies(CostlierFirst, tasks, s[i], s[j]);
      }
    }
  }

  // What assign promises about a balancer whose loads were `start`: the order by cost,
  // given out greedily.
  ghost predicate Assigned(start: seq<real>, tasks: seq<TaskNode>, shares: seq<seq<TaskNode>>, load: seq<real>)
    requires start != []
  {
    ByCost(tasks, Sort(CostlierFirst, tasks)) &&
    exists a :: AssignedBy(start, Sort(CostlierFirst, tasks), shares, load, a)
  }

  ghost predicate AssignedBy(start: seq<real>, s: seq<TaskNode>, shares: seq<seq<TaskNode>>, load: seq<real>,
      a: seq<nat>)
    requires start != []
  {
    && Greedy(Cost, start, s, a) && |shares| == |start|
    && (forall w: nat {:trigger shares[w]} :: w < |start| ==> shares[w] == Share(s, a, w))
    && load == After(Cost, start, s, a)
  }

  lemma {:induction false} ByCostSorted(tasks: seq<TaskNode>)
    ensures Descending(Cost, Sort(CostlierFirst, tasks))
    ensures multiset(Sort(CostlierFirst, tasks)) == multiset(tasks)
  {
    SortSorts(CostlierFirst, tasks);
    var s := Sort(CostlierFirst, tasks);
    forall i, j | 0 <= i < j < |s|
      ensures Cost(s[i]) >= Cost(s[j])
    {
      assert CostlierFirst(s[i], s[j]);
    }
  }

  lemma {:induction false} SortedStaysWithin(tasks: seq<TaskNode>, opt: seq<nat>, m: nat, b: real)
      returns (best: seq<nat>)
    requires Within(Cost, tasks, opt, m, b)
    ensures Within(Cost, Sort(CostlierFirst, tasks), best, m, b)
  {
    var s := Sort(CostlierFirst, tasks);
    best := Reschedule(Cost, tasks, opt, s, m);
    forall w: nat | w < m
      ensures Load(Cost, s, best, w) <= b
    {
      assert Load(Cost, tasks, opt, w) <= b;
    }
  }

  lemma {:induction false} SortedStaysNonNegative(tasks: seq<TaskNode>, s: seq<TaskNode>)
    requires multiset(s) == multiset(tasks) && forall i :: 0 <= i < |tasks| ==> tasks[i].cost >= 0.0
    ensures forall i :: 0 <= i < |s| ==> Cost(s[i]) >= 0.0
  {
    forall i | 0 <= i < |s|
      ensures Cost(s[i]) >= 0.0
    {
      assert s[i] in multiset(s);
      assert s[i] in tasks;
    }
  }

  // From idle workers and non-negative costs: for every schedule of the same tasks
  // that keeps all workers within b, three m times any load that assign leaves is at
  // most 4m - 1 times b.
  lemma {:induction false} AssignIsNearOptimal(start: seq<real>, tasks: seq<TaskNode>, shares: seq<seq<TaskNode>>,
      load: seq<real>, opt: seq<nat>, b: real, w: nat)
    requires start != [] && (forall i :: 0 <= i < |start| ==> start[i] == 0.0) && w < |start| == |load|
    requires forall i :: 0 <= i < |tasks| ==> tasks[i].cost >= 0.0
    requires Assigned(start, tasks, shares, load) && Within(Cost, tasks, opt, |start|, b)
    ensures Graham(|start|, load[w], b)
  {
    var s := Sort(CostlierFirst, tasks);
    ByCostSorted(tasks);
    var a :| AssignedBy(start, s, shares, load, a);
    var best := SortedStaysWithin(tasks, opt, |start|, b);
    SortedStaysNonNegative(tasks, s);
    LptBound(Cost, start, s, a, best, b, w);
    assert load[w] == start[w] + Load(Cost, s, a, w);
  }

  function Shares<T>(s: seq<T>, a: seq<nat>, m: nat): (r: seq<seq<T>>)
    requires |a| == |s|
    ensures |r| == m
  {
    seq(m, w requires 0 <= w < m => Share(s, a, w))
  }

  lemma {:induction false} SharesStep<T>(s: seq<T>, a: seq<nat>, m: nat)
    requires Schedule(s, a, m) && s != []
    ensures var n := |s| - 1;
      var before := Shares(s[..n], a[..n], m);
      Shares(s, a, m) == before[a[n] := before[a[n]] + [s[n]]]
  {
    var n := |s| - 1;
    var before := Shares(s[..n], a[..n], m);
    var after := before[a[n] := before[a[n]] + [s[n]]];
    forall w: nat | w < m
      ensures Shares(s, a, m)[w] == after[w]
    {
      assert Share(s, a, w) == Share(s[..n], a[..n], w) + if a[n] == w then [s[n]] else [];
    }
  }

  lemma {:induction false} SharesPartition<T>(s: seq<T>, a: seq<nat>, m: nat)
    requires Schedule(s, a, m)
    ensures TasksOf(Shares(s, a, m)) == multiset(s)
  {
    if s == [] {
      assert Shares(s, a, m) == seq(m, _ => []);
      NothingHandedOut<T>(m);
    } else {
      var n := |s| - 1;
      SharesPartition(s[..n], a[..n], m);
      HandOut(Shares(s[..n], a[..n], m), a[n], s[n]);
      SharesStep(s, a, m);
      LastCounts(s);
    }
  }

  lemma {:induction false} LastCounts<T>(s: seq<T>)
    requires s != []
    ensures multiset(s) == multiset(s[..|s| - 1]) + multiset{s[|s| - 1]}
  {
    assert s == s[..|s| - 1] + [s[|s| - 1]];
  }

  // Every task goes to exactly one worker, whatever the loads at the start.
  lemma {:induction false} AssignPartitions(start: seq<real>, tasks: seq<TaskNode>, shares: seq<seq<TaskNode>>,
      load: seq<real>)
    requires start != [] && Assigned(start, tasks, shares, load)
    ensures TasksOf(shares) == multiset(tasks)
  {
    var s := Sort(CostlierFirst, tasks);
    var a :| AssignedBy(start, s, shares, load, a);
    GreedyIsSchedule(Cost, start, s, a);
    SharesPartition(s, a, |start|);
    assert shares == Shares(s, a, |start|);
  }

  class LoadBalancer {
    const workerCount: nat
    var load: array<real>

    ghost predicate Valid()
      reads this
    {
      workerCount >= 1 && load.Length == workerCount
    }

    constructor (workerCount: nat)
      requires workerCount >= 1
      ensures Valid() && fresh(load) && this.workerCount == workerCount
      ensures forall i :: 0 <= i < workerCount ==> load[i] == 0.0
    {
      this.workerCount := workerCount;
      load := new real[workerCount](_ => 0.0);
    }

    // The constructor's own check, as the source makes it.
    static method Create(workerCount: int) returns (r: Option<LoadBalancer>)
      ensures r.None? <==> workerCount < 1
      ensures r.Some? ==> fresh(r.value) && r.value.Valid() && r.value.workerCount == workerCount
      ensures r.Some? ==> fresh(r.value.load) && forall i :: 0 <= i < workerCount ==> r.value.load[i] == 0.0
    {
      if workerCount < 1 {
        return None;
      }
      var b := new LoadBalancer(workerCount);
      return Some(b);
    }

    method Reset()
      requires Valid()
      modifies this`load
      ensures Valid() && fresh(load) && forall i :: 0 <= i < workerCount ==> load[i] == 0.0
    {
      load := new real[workerCount](_ => 0.0);
    }

    method Charge(worker: nat, cost: real)
      requires Valid() && worker < load.Length
      modifies load
      ensures load[..] == old(load[..])[worker := old(load[worker]) + cost]
    {
      load[worker] := load[worker] + cost;
    }

    // The loop body: the next task goes to the least loaded worker.
    method GiveTask(s: seq<TaskNode>, i: nat, shares: seq<seq<TaskNode>>, ghost start: seq<real>, ghost a: seq<nat>)
        returns (assignment: seq<seq<TaskNode>>, ghost b: seq<nat>)
      requires Valid() && start != [] && i < |s| && AssignedBy(start, s[..i], shares, load[..], a)
      modifies load
      ensures AssignedBy(start, s[..i + 1], assignment, load[..], b)
    {
      var worker := Least(load[..]);
      AssignOne(start, s, i, shares, load[..], a, worker);
      assignment := shares[worker := shares[worker] + [s[i]]];
      Charge(worker, s[i].cost);
      b := a + [worker];
    }

    method Assign(tasks: seq<TaskNode>) returns (assignment: seq<seq<TaskNode>>)
      requires Valid()
      modifies load
      ensures Valid() && load == old(load)
      ensures Assigned(old(load[..]), tasks, assignment, load[..])
    {
      ghost var start := load[..];
      ghost var a: seq<nat> := [];
      assignment := seq(workerCount, _ => []);
      var s := Sort(CostlierFirst, tasks);
      SortedByCost(tasks);
      NothingAssigned(start, s, assignment);
      var i := 0;
      while i < |s|
        invariant 0 <= i <= |s| && load == old(load) && load.Length == workerCount
        invariant AssignedBy(start, s[..i], assignment, load[..], a)
      {
        assignment, a := GiveTask(s, i, assignment, start, a);
        i := i + 1;
      }
      assert s[..|s|] == s;
    }
  }

  lemma {:induction false} NothingAssigned(start: seq<real>, s: seq<TaskNode>, shares: seq<seq<TaskNode>>)
    requires start != [] && |shares| == |start| && forall w {:trigger shares[w]} :: 0 <= w < |shares| ==>
      shares[w] == []
    ensures AssignedBy(start, s[..0], shares, start, [])
  {
    assert After(Cost, start, s[..0], []) == start;
  }

  lemma {:induction false} AssignOne(start: seq<real>, s: seq<TaskNode>, i: nat, shares: seq<seq<TaskNode>>,
      load: seq<real>, a: seq<nat>, worker: nat)
    requires start != [] && i < |s| && AssignedBy(start, s[..i], shares, load, a) && worker == Least(load)
    ensures worker < |load| && worker < |shares|
    ensures AssignedBy(start, s[..i + 1], shares[worker := shares[worker] + [s[i]]],
      load[worker := load[worker] + s[i].cost], a + [worker])
  {
    var t, b := s[..i + 1], a + [worker];
    assert t[..i] == s[..i] && b[..i] == a;
    var load' := load[worker := load[worker] + s[i].cost];
    forall w: nat | w < |start|
      ensures load'[w] == After(Cost, start, t, b)[w]
    {
      assert Load(Cost, t, b, w) == Load(Cost, s[..i], a, w) + if worker == w then Cost(s[i]) else 0.0;
      assert load[w] == After(Cost, start, s[..i], a)[w];
    }
    assert load' == After(Cost, start, t, b);
    var shares' := shares[worker := shares[worker] + [s[i]]];
    forall w: nat | w < |start|
      ensures shares'[w] == Share(t, b, w)
    {
      assert shares[w] == Share(s[..i], a, w);
    }
  }
}
