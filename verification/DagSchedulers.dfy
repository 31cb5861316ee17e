// DAGScheduler.run and _run_node (src/cadgenesis/agents/scheduling.py), as methods
// over the nodes of a TaskGraph.
module DagSchedulers {
  import opened Results
  import opened Seqs
  import opened Graphs
  import opened TaskGraphs
  import opened DagRuns
  import opened LongestChains

  datatype Stats = Stats(total: int, tally: Tally, criticalPath: real)

  // The counters of the statistics are those of the final state, and the critical
  // path is the cost of a longest chain.
  ghost predicate Reported(g: Graph, cost: map<Id, real>, st: map<Id, RunState>, stats: Stats)
    requires cost.Keys == g.Keys
  {
    && stats.total == |g| && Counted(st, stats.tally)
    && exists path :: LongestChains.CriticalPath(g, cost, path, stats.criticalPath)
  }

  // The run is over and its statistics tell what happened.
  ghost predicate RunReported(g: Graph, cost: map<Id, real>, env: Env, st: map<Id, RunState>, trace: seq<Id>,
      waves: nat, stats: Stats)
    requires cost.Keys == g.Keys
  {
    RunDone(g, env, st, trace, waves) && Punctual(g, env, st, trace) && Reported(g, cost, st, stats)
  }

  lemma {:induction false} Report(g: Graph, cost: map<Id, real>, env: Env, st: map<Id, RunState>, trace: seq<Id>,
      waves: nat, stats: Stats, path: seq<Id>)
    requires cost.Keys == g.Keys && RunDone(g, env, st, trace, waves) && stats.total == |g| && Counted(st, stats.tally)
    requires LongestChains.CriticalPath(g, cost, path, stats.criticalPath)
    ensures RunReported(g, cost, env, st, trace, waves, stats)
  {
    RunIsPunctual(g, env, st, trace, waves);
  }

  // The trace of the earlier waves, extended by the nodes of this wave that met
  // their deadlines.
  ghost predicate Extended(g: Graph, env: Env, before: seq<Id>, trace: seq<Id>, ran: seq<Id>, now: real)
    requires Setup(g, env)
  {
    && InRunOrder(g, env, trace)
    && (forall n :: n in trace <==> n in before || (n in ran && n in g && !Missed(env.deadline[n], now)))
  }

  // What a wave starts from.
  ghost predicate WaveStart(g: Graph, env: Env, st: map<Id, RunState>, waiting: set<Id>, k: nat, ready: seq<Id>,
      before: seq<Id>)
  {
    && Setup(g, env) && Progress(g, env, st, waiting, k) && Wave(g, st, waiting, Elems(ready))
    && NoDup(ready) && SortedBy((a: Id, b: Id) => RunsFirst(env.priority, a, b), ready)
    && Traced(g, env, waiting, before, k)
  }

  // The wave after its first i nodes.
  ghost predicate InWave(g: Graph, env: Env, st: map<Id, RunState>, st': map<Id, RunState>, waiting: set<Id>,
      pending: set<Id>, ready: seq<Id>, i: nat, now: real, before: seq<Id>, trace: seq<Id>, tally: Tally)
    requires Setup(g, env) && i <= |ready|
  {
    && Ran(g, env, st, st', Elems(ready[..i]), now) && Counted(st', tally)
    && Extended(g, env, before, trace, ready[..i], now)
    && pending == waiting - Elems(ready[..i])
  }

  lemma {:induction false} EnterWave(g: Graph, env: Env, st: map<Id, RunState>, waiting: set<Id>, k: nat,
      ready: seq<Id>, now: real, before: seq<Id>, tally: Tally)
    requires WaveStart(g, env, st, waiting, k, ready, before) && Counted(st, tally)
    ensures InWave(g, env, st, st, waiting, waiting, ready, 0, now, before, before, tally)
  {
    assert ready[..0] == [];
    forall n | n in g
      ensures RanAt(env, st, st, {}, now, n)
    {
    }
  }

  lemma {:induction false} NextInWave(g: Graph, env: Env, st: map<Id, RunState>, st': map<Id, RunState>,
      waiting: set<Id>, pending: set<Id>, k: nat, ready: seq<Id>, i: nat, now: real, before: seq<Id>, trace: seq<Id>,
      tally: Tally)
    requires WaveStart(g, env, st, waiting, k, ready, before) && i < |ready|
    requires InWave(g, env, st, st', waiting, pending, ready, i, now, before, trace, tally)
    ensures ready[i] in g && st'[ready[i]] == FRESH
    ensures var n := ready[i];
      var x := NodeOutcome(env, n, now);
      InWave(g, env, st, st'[n := x], waiting, pending - {n}, ready, i + 1, now, before,
        if Missed(env.deadline[n], now) then trace else trace + [n], Count(tally, x.status))
  {
    var n := ready[i];
    assert ready[..i + 1] == ready[..i] + [n];
    ElemsSnoc(ready[..i], n);
    NoDupCut(ready, 0, i);
    assert n in Elems(ready) && IsReady(g, st, n);
    assert ProgressAt(g, env, st, waiting, k, n);
    assert RanAt(env, st, st', Elems(ready[..i]), now, n);
    RanOne(g, env, st, st', Elems(ready[..i]), now, n);
    AttemptsStop(env.exec, n, env.tries[n], RunState(Running, 0, ""));
    CountAll(st', n, NodeOutcome(env, n, now), tally);
    assert forall m :: m in ready[..i + 1] <==> m in ready[..i] || m == n;
    if !Missed(env.deadline[n], now) {
      ShallowBefore(g, env, st, waiting, k, before);
      RunOrderInWave(g, env, st, waiting, k, ready, i, before, trace);
    }
  }

  lemma {:induction false} LeaveWave(g: Graph, env: Env, st: map<Id, RunState>, st': map<Id, RunState>,
      waiting: set<Id>, pending: set<Id>, k: nat, ready: seq<Id>, before: seq<Id>, trace: seq<Id>, tally: Tally)
    requires WaveStart(g, env, st, waiting, k, ready, before) && ready != []
    requires InWave(g, env, st, st', waiting, pending, ready, |ready|, env.clock(k + 1), before, trace, tally)
    ensures pending < waiting && Progress(g, env, st', pending, k + 1)
    ensures Counted(st', tally) && Traced(g, env, pending, trace, k + 1)
  {
    assert ready[..|ready|] == ready;
    assert ready[0] in Elems(ready) && IsReady(g, st, ready[0]);
    WaveEnds(g, env, st, st', waiting, Elems(ready), k);
    TracedAfterWave(g, env, st, waiting, Elems(ready), k, before, trace);
  }

  lemma {:induction false} ShallowBefore(g: Graph, env: Env, st: map<Id, RunState>, waiting: set<Id>, k: nat,
      before: seq<Id>)
    requires Setup(g, env) && Progress(g, env, st, waiting, k) && Traced(g, env, waiting, before, k)
    ensures forall m :: m in before ==> m in g && Depth(g)[m] <= k
  {
    forall m | m in before
      ensures m in g && Depth(g)[m] <= k
    {
      assert ProgressAt(g, env, st, waiting, k, m);
    }
  }

  // The state after skipping the given tasks.
  ghost predicate SkippedAt(st: map<Id, RunState>, st': map<Id, RunState>, gone: set<Id>, n: Id)
    requires n in st && n in st'
  {
    st'[n] == if n in gone then RunState(Skipped, 0, UNSATISFIED) else st[n]
  }

  ghost predicate Skipping(st: map<Id, RunState>, st': map<Id, RunState>, gone: set<Id>) {
    st.Keys == st'.Keys && forall n {:trigger SkippedAt(st, st', gone, n)} ::
      n in st.Keys ==> SkippedAt(st, st', gone, n)
  }

  lemma {:induction false} NextToSkip(st: map<Id, RunState>, st': map<Id, RunState>, pending: set<Id>, ids: seq<Id>,
      i: nat, tally: Tally)
    requires NoDup(ids) && Elems(ids) == st.Keys && i < |ids| && Counted(st', tally)
    requires forall n {:trigger st[n]} :: n in pending ==> n in st && st[n] == FRESH
    requires Skipping(st, st', pending * Elems(ids[..i]))
    ensures ids[i] in st
    ensures var n := ids[i];
      if n in pending then
        var st'' := st'[n := RunState(Skipped, 0, UNSATISFIED)];
        && st'[n] == FRESH && Skipping(st, st'', pending * Elems(ids[..i + 1]))
        && Counted(st'', tally.(skipped := tally.skipped + 1))
      else Skipping(st, st', pending * Elems(ids[..i + 1]))
  {
    var n := ids[i];
    assert n in Elems(ids);
    assert ids[..i + 1] == ids[..i] + [n];
    ElemsSnoc(ids[..i], n);
    NoDupCut(ids, 0, i);
    assert SkippedAt(st, st', pending * Elems(ids[..i]), n);
    var x := RunState(Skipped, 0, UNSATISFIED);
    var st'' := if n in pending then st'[n := x] else st';
    if n in pending {
      assert st[n] == FRESH;
      CountAll(st', n, x, tally);
    }
    forall m | m in st.Keys
      ensures SkippedAt(st, st'', pending * Elems(ids[..i + 1]), m)
    {
      assert SkippedAt(st, st', pending * Elems(ids[..i]), m);
    }
  }

  lemma {:induction false} EndSkipping(g: Graph, env: Env, st: map<Id, RunState>, st': map<Id, RunState>,
      pending: set<Id>, k: nat, trace: seq<Id>)
    requires Setup(g, env) && Progress(g, env, st, pending, k) && Wave(g, st, pending, {})
    requires Traced(g, env, pending, trace, k) && Skipping(st, st', pending)
    ensures RunDone(g, env, st', trace, k)
  {
    forall n | n in g
      ensures st'[n] == if n in pending then RunState(Skipped, 0, UNSATISFIED) else st[n]
    {
      assert SkippedAt(st, st', pending, n);
    }
    EndOfRun(g, env, st, st', pending, k, trace);
  }

  lemma {:induction false} FreshPending(g: Graph, env: Env, st: map<Id, RunState>, pending: set<Id>, k: nat)
    requires Setup(g, env) && Progress(g, env, st, pending, k)
    ensures forall n {:trigger st[n]} :: n in pending ==> n in st && st[n] == FRESH
  {
    forall n | n in pending
      ensures n in st && st[n] == FRESH
    {
      assert ProgressAt(g, env, st, pending, k, n);
    }
  }

  lemma {:induction false} NothingCounted(st: map<Id, RunState>)
    requires forall n {:trigger st[n]} :: n in st ==> st[n] == FRESH
    ensures Counted(st, Tally(0, 0, 0))
  {
    assert WithStatus(st, Completed) == WithStatus(st, Failed) == WithStatus(st, Skipped) == {};
  }

  lemma {:induction false} WaveOf(ids: seq<Id>, g: Graph, st: map<Id, RunState>, pending: set<Id>, all: seq<Id>,
      ready: seq<Id>)
    requires NoDup(ids) && all == Filter(ids, (n: Id) => IsReady(g, st, n))
    requires ready == Filter(all, (n: Id) => n in pending)
    requires forall n :: n in all <==> IsReady(g, st, n)
    ensures NoDup(ready) && Wave(g, st, pending, Elems(ready))
  {
    FilterNoDup(ids, (n: Id) => IsReady(g, st, n));
    FilterNoDup(all, (n: Id) => n in pending);
    forall n
      ensures n in Elems(ready) <==> n in pending && IsReady(g, st, n)
    {
    }
  }

  function SortReady(priority: map<Id, int>, ready: seq<Id>): (r: seq<Id>)
    ensures Elems(r) == Elems(ready) && |r| == |ready| && (NoDup(ready) ==> NoDup(r))
    ensures SortedBy((a: Id, b: Id) => RunsFirst(priority, a, b), r)
  {
    var r := Sort((a: Id, b: Id) => RunsFirst(priority, a, b), ready);
    RunsFirstTotal(priority, ready);
    SortSorts((a: Id, b: Id) => RunsFirst(priority, a, b), ready);
    SameElems(r, ready);
    r
  }

  class DagScheduler {
    const defaultRetries: int

    constructor (defaultRetries: int)
      ensures this.defaultRetries == defaultRetries
    {
      this.defaultRetries := defaultRetries;
    }

    // What a run of this scheduler over the graph is given.
    function RunEnv(graph: TaskGraph, exec: (Id, int) -> Outcome, clock: nat -> real): Env
      reads graph
    {
      Env(exec, clock, map id | id in graph.nodes :: graph.nodes[id].priority,
        map id | id in graph.nodes :: graph.nodes[id].deadline,
        map id | id in graph.nodes :: MaxAttempts(graph.nodes[id].retries, defaultRetries))
    }

    // Every node that ran had its own number of retries, or the default for zero, after
    // the first attempt.
    ghost predicate RanByLimits(graph: TaskGraph, st: map<Id, RunState>, exec: (Id, int) -> Outcome, trace: seq<Id>)
      reads graph
    {
      st.Keys == graph.nodes.Keys && forall n {:trigger graph.nodes[n]} :: n in trace ==>
        n in graph.nodes && AttemptsWithin(exec, n,
          if graph.nodes[n].retries == 0 then defaultRetries + 1 else graph.nodes[n].retries + 1, st[n])
    }

    // What a run leaves in the graph, its trace and its statistics.
    ghost predicate RunTold(graph: TaskGraph, exec: (Id, int) -> Outcome, clock: nat -> real, trace: seq<Id>,
        waves: nat, stats: Stats)
      reads graph, graph.nodes.Values
    {
      && RunReported(graph.Deps(), graph.Costs(), RunEnv(graph, exec, clock), graph.States(), trace, waves, stats)
      && RanByLimits(graph, graph.States(), exec, trace)
    }

    lemma {:induction false} LimitsKept(graph: TaskGraph, exec: (Id, int) -> Outcome, clock: nat -> real,
        st: map<Id, RunState>, trace: seq<Id>)
      requires Setup(graph.Deps(), RunEnv(graph, exec, clock)) && st.Keys == graph.nodes.Keys
      requires Punctual(graph.Deps(), RunEnv(graph, exec, clock), st, trace)
      requires InRunOrder(graph.Deps(), RunEnv(graph, exec, clock), trace)
      ensures RanByLimits(graph, st, exec, trace)
    {
      forall n | n in trace
        ensures n in graph.nodes
        ensures AttemptsWithin(exec, n,
          if graph.nodes[n].retries == 0 then defaultRetries + 1 else graph.nodes[n].retries + 1, st[n])
      {
        assert PunctualAt(graph.Deps(), RunEnv(graph, exec, clock), st, trace, n);
      }
    }

    // _run_node: attempts until one succeeds or the limit is reached.  A success
    // leaves the error text of an earlier attempt in place.
    method RunNode(graph: TaskGraph, n: Id, exec: (Id, int) -> Outcome)
      requires graph.Valid() && n in graph.nodes && graph.nodes[n].attempts == 0
      modifies graph.nodes[n]
      ensures graph.Valid() && graph.ids == old(graph.ids) && graph.nodes == old(graph.nodes)
      ensures graph.Deps() == old(graph.Deps())
      ensures graph.States() == old(graph.States())[n :=
        Attempts(exec, n, MaxAttempts(graph.nodes[n].retries, defaultRetries), old(graph.States())[n])]
    {
      ghost var start := graph.States()[n];
      assert forall id :: id in graph.nodes && id != n ==> graph.nodes[id] != graph.nodes[n];
      RunAttempts(graph.nodes[n], exec, start);
      assert graph.Deps() == old(graph.Deps());
    }

    // The retry loop of _run_node.
    method RunAttempts(node: TaskNode, exec: (Id, int) -> Outcome, ghost start: RunState)
      requires start == RunState(node.status, node.attempts, node.error) && node.attempts == 0
      modifies node
      ensures node.dependsOn == old(node.dependsOn)
      ensures RunState(node.status, node.attempts, node.error)
           == Attempts(exec, node.taskId, MaxAttempts(node.retries, defaultRetries), start)
    {
      var attempts := 0;
      var maxAttempts := MaxAttempts(node.retries, defaultRetries);
      while attempts < maxAttempts
        invariant node.attempts == attempts && node.dependsOn == old(node.dependsOn)
        invariant Attempts(exec, node.taskId, maxAttempts, RunState(node.status, node.attempts, node.error))
               == Attempts(exec, node.taskId, maxAttempts, start)
      {
        attempts := attempts + 1;
        node.attempts := attempts;
        match exec(node.taskId, attempts) {
          case Fine =>
            node.status := Completed;
            return;
          case Refused(message) =>
            node.status := Failed;
            node.error := message;
          case Raised(text) =>
            node.error := text;
            node.status := Failed;
        }
      }
      node.status := Failed;
    }

    // The loop body for one ready node.
    method StepNode(graph: TaskGraph, n: Id, now: real, exec: (Id, int) -> Outcome, ghost env: Env)
      requires graph.Valid() && n in graph.nodes && graph.States()[n] == FRESH
      requires n in env.deadline && env.deadline[n] == graph.nodes[n].deadline && env.exec == exec
      requires n in env.tries && env.tries[n] == MaxAttempts(graph.nodes[n].retries, defaultRetries)
      modifies graph.nodes[n]
      ensures graph.Valid() && graph.ids == old(graph.ids) && graph.nodes == old(graph.nodes)
      ensures graph.Deps() == old(graph.Deps())
      ensures graph.States() == old(graph.States())[n := NodeOutcome(env, n, now)]
    {
      var node := graph.nodes[n];
      assert node.status == Pending && node.attempts == 0 && node.error == "";
      if Missed(node.deadline, now) {
        graph.Record(n, RunState(Skipped, node.attempts, MISSED));
      } else {
        graph.Record(n, RunState(Running, node.attempts, node.error));
        assert graph.nodes[n].attempts == 0 by {
          assert graph.States()[n] == RunState(Running, 0, "");
        }
        RunNode(graph, n, exec);
      }
    }

    // Every node back to pending, with no attempts and no error.
    method Reset(graph: TaskGraph)
      requires graph.Valid()
      modifies graph.nodes.Values
      ensures graph.Valid() && graph.ids == old(graph.ids) && graph.nodes == old(graph.nodes)
      ensures graph.Deps() == old(graph.Deps())
      ensures forall n {:trigger graph.States()[n]} :: n in graph.nodes ==> graph.States()[n] == FRESH
    {
      var i := 0;
      while i < |graph.ids|
        invariant 0 <= i <= |graph.ids|
        invariant graph.Valid() && graph.ids == old(graph.ids) && graph.nodes == old(graph.nodes)
        invariant graph.Deps() == old(graph.Deps())
        invariant forall j {:trigger graph.ids[j]} :: 0 <= j < i ==>
          graph.ids[j] in graph.nodes && graph.States()[graph.ids[j]] == FRESH
      {
        assert graph.ids[i] in Elems(graph.ids);
        graph.Record(graph.ids[i], FRESH);
        i := i + 1;
      }
      forall n | n in graph.nodes
        ensures graph.States()[n] == FRESH
      {
        assert n in Elems(graph.ids);
        var j :| 0 <= j < |graph.ids| && graph.ids[j] == n;
      }
    }

    // One wave: the ready nodes in order, against one reading of the clock.
    method RunWave(graph: TaskGraph, ready: seq<Id>, now: real, exec: (Id, int) -> Outcome, waiting: set<Id>,
        counts: Tally, ghost g: Graph, ghost env: Env, ghost k: nat, ghost before: seq<Id>)
        returns (pending: set<Id>, tally: Tally, ghost trace: seq<Id>)
      requires graph.Valid() && g == graph.Deps() && env == RunEnv(graph, exec, env.clock)
      requires WaveStart(g, env, graph.States(), waiting, k, ready, before) && ready != []
      requires now == env.clock(k + 1) && Counted(graph.States(), counts)
      modifies graph.nodes.Values
      ensures graph.Valid() && graph.ids == old(graph.ids) && graph.nodes == old(graph.nodes) && graph.Deps() == g
      ensures pending < waiting && Progress(g, env, graph.States(), pending, k + 1)
      ensures Counted(graph.States(), tally) && Traced(g, env, pending, trace, k + 1)
    {
      pending, tally, trace := waiting, counts, before;
      ghost var st := graph.States();
      EnterWave(g, env, st, waiting, k, ready, now, before, counts);
      var i := 0;
      while i < |ready|
        invariant 0 <= i <= |ready|
        invariant graph.Valid() && graph.ids == old(graph.ids) && graph.nodes == old(graph.nodes) && graph.Deps() == g
        invariant InWave(g, env, st, graph.States(), waiting, pending, ready, i, now, before, trace, tally)
      {
        var n := ready[i];
        NextInWave(g, env, st, graph.States(), waiting, pending, k, ready, i, now, before, trace, tally);
        StepNode(graph, n, now, exec, env);
        assert graph.States()[n].status == graph.nodes[n].status;
        pending := pending - {n};
        tally := Count(tally, graph.nodes[n].status);
        if !Missed(graph.nodes[n].deadline, now) {
          trace := trace + [n];
        }
        i := i + 1;
      }
      LeaveWave(g, env, st, graph.States(), waiting, pending, k, ready, before, trace, tally);
    }

    // The branch without ready nodes: whatever is pending is skipped.
    method SkipRest(graph: TaskGraph, pending: set<Id>, counts: Tally) returns (tally: Tally)
      requires graph.Valid() && pending <= graph.nodes.Keys && Counted(graph.States(), counts)
      requires forall n {:trigger graph.States()[n]} :: n in pending ==> graph.States()[n] == FRESH
      modifies graph.nodes.Values
      ensures graph.Valid() && graph.ids == old(graph.ids) && graph.nodes == old(graph.nodes)
      ensures graph.Deps() == old(graph.Deps())
      ensures Skipping(old(graph.States()), graph.States(), pending) && Counted(graph.States(), tally)
    {
      tally := counts;
      ghost var st := graph.States();
      var i := 0;
      while i < |graph.ids|
        invariant 0 <= i <= |graph.ids|
        invariant graph.Valid() && graph.ids == old(graph.ids) && graph.nodes == old(graph.nodes)
        invariant graph.Deps() == old(graph.Deps())
        invariant Skipping(st, graph.States(), pending * Elems(graph.ids[..i])) && Counted(graph.States(), tally)
      {
        var n := graph.ids[i];
        NextToSkip(st, graph.States(), pending, graph.ids, i, tally);
        if n in pending {
          graph.Record(n, RunState(Skipped, graph.nodes[n].attempts, UNSATISFIED));
          tally := tally.(skipped := tally.skipped + 1);
        }
        i := i + 1;
      }
      assert graph.ids[..i] == graph.ids;
      assert pending * Elems(graph.ids) == pending;
    }

    // run: waves until nothing is pending or nothing is ready.
    method Run(graph: TaskGraph, exec: (Id, int) -> Outcome, clock: nat -> real)
        returns (r: Result<Stats, GraphError>, ghost trace: seq<Id>, ghost waves: nat)
      requires graph.Valid()
      modifies graph.nodes.Values
      ensures graph.Valid() && graph.ids == old(graph.ids) && graph.nodes == old(graph.nodes)
      ensures graph.Deps() == old(graph.Deps())
      ensures r.Ok? <==> !Cyclic(graph.Deps()) && DupFree(graph.Deps())
      ensures r.Err? ==> r.error == CycleFound && graph.States() == old(graph.States())
      ensures r.Ok? ==> RunTold(graph, exec, clock, trace, waves, r.value)
    {
      trace, waves := [], 0;
      var acyclic := graph.IsAcyclic();
      if !acyclic {
        return Err(CycleFound), trace, waves;
      }
      var stats;
      stats, trace, waves := RunAcyclic(graph, exec, clock);
      r := Ok(stats);
    }

    // The critical path does not depend on the run.
    method RunAcyclic(graph: TaskGraph, exec: (Id, int) -> Outcome, clock: nat -> real)
        returns (stats: Stats, ghost trace: seq<Id>, ghost waves: nat)
      requires graph.Valid() && !Cyclic(graph.Deps()) && DupFree(graph.Deps())
      modifies graph.nodes.Values
      ensures graph.Valid() && graph.ids == old(graph.ids) && graph.nodes == old(graph.nodes)
      ensures graph.Deps() == old(graph.Deps())
      ensures RunTold(graph, exec, clock, trace, waves, stats)
    {
      var critical := graph.CriticalPath();
      assert graph.Valid() && graph.Deps() == old(graph.Deps());
      stats, trace, waves := RunWith(graph, exec, clock, critical.value.1, critical.value.0);
    }

    // The waves and the statistics, given the cost of the critical path.
    method RunWith(graph: TaskGraph, exec: (Id, int) -> Outcome, clock: nat -> real, critical: real,
        ghost path: seq<Id>) returns (stats: Stats, ghost trace: seq<Id>, ghost waves: nat)
      requires graph.Valid() && !Cyclic(graph.Deps())
      requires LongestChains.CriticalPath(graph.Deps(), graph.Costs(), path, critical)
      modifies graph.nodes.Values
      ensures graph.Valid() && graph.ids == old(graph.ids) && graph.nodes == old(graph.nodes)
      ensures graph.Deps() == old(graph.Deps())
      ensures RunTold(graph, exec, clock, trace, waves, stats)
    {
      var tally;
      ghost var g, cost := graph.Deps(), graph.Costs();
      tally, trace, waves := Waves(graph, exec, clock);
      SameKeysSameSize(graph.nodes, g);
      stats := Stats(|graph.nodes|, tally, critical);
      assert graph.Costs() == cost;
      Report(g, cost, RunEnv(graph, exec, clock), graph.States(), trace, waves, stats, path);
      LimitsKept(graph, exec, clock, graph.States(), trace);
    }

    method Waves(graph: TaskGraph, exec: (Id, int) -> Outcome, clock: nat -> real)
        returns (tally: Tally, ghost trace: seq<Id>, ghost waves: nat)
      requires graph.Valid() && !Cyclic(graph.Deps())
      modifies graph.nodes.Values
      ensures graph.Valid() && graph.ids == old(graph.ids) && graph.nodes == old(graph.nodes)
      ensures graph.Deps() == old(graph.Deps())
      ensures RunDone(graph.Deps(), RunEnv(graph, exec, clock), graph.States(), trace, waves)
      ensures Counted(graph.States(), tally)
    {
      Reset(graph);
      ghost var g, env := graph.Deps(), RunEnv(graph, exec, clock);
      AcyclicIffOrder(g);
      ProgressStarts(g, env, graph.States());
      NothingCounted(graph.States());
      tally, trace, waves := RunWaves(graph, exec, clock, g, env);
    }

    // The loop over the waves.
    method RunWaves(graph: TaskGraph, exec: (Id, int) -> Outcome, clock: nat -> real, ghost g: Graph, ghost env: Env)
        returns (tally: Tally, ghost trace: seq<Id>, ghost waves: nat)
      requires graph.Valid() && g == graph.Deps() && env == RunEnv(graph, exec, clock) && Setup(g, env)
      requires Progress(g, env, graph.States(), g.Keys, 0) && Traced(g, env, g.Keys, [], 0)
      requires Counted(graph.States(), Tally(0, 0, 0))
      modifies graph.nodes.Values
      ensures graph.Valid() && graph.ids == old(graph.ids) && graph.nodes == old(graph.nodes)
      ensures graph.Deps() == g && Counted(graph.States(), tally)
      ensures RunDone(g, env, graph.States(), trace, waves)
    {
      tally, trace, waves := Tally(0, 0, 0), [], 0;
      var wave: nat := 0;
      var pending := Elems(graph.ids);
      assert pending == g.Keys;
      while pending != {}
        invariant graph.Valid() && graph.ids == old(graph.ids) && graph.nodes == old(graph.nodes)
        invariant graph.Deps() == g && wave == waves
        invariant Progress(g, env, graph.States(), pending, wave)
        invariant Counted(graph.States(), tally) && Traced(g, env, pending, trace, wave)
        decreases pending
      {
        var ready := Filter(graph.ReadyNodes(), (n: Id) => n in pending);
        WaveOf(graph.ids, g, graph.States(), pending, graph.ReadyNodes(), ready);
        if ready == [] {
          ghost var st := graph.States();
          FreshPending(g, env, st, pending, wave);
          tally := SkipRest(graph, pending, tally);
          EndSkipping(g, env, st, graph.States(), pending, wave, trace);
          return;
        }
        var priority := map id | id in graph.nodes :: graph.nodes[id].priority;
        ready := SortReady(priority, ready);
        pending, tally, trace := RunWave(graph, ready, clock(wave + 1), exec, pending, tally, g, env, wave, trace);
        wave, waves := wave + 1, waves + 1;
      }
      EndOfRun(g, env, graph.States(), graph.States(), {}, wave, trace);
    }
  }
}
