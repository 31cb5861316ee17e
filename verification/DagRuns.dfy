// What a run of DAGScheduler leaves behind, stated on values: the outcome of one
// node's attempts, the rule every node's final state obeys, and the consequences
// for the whole graph (src/cadgenesis/agents/scheduling.py).
module DagRuns {
  import opened Results
  import opened Seqs
  import opened Graphs
  import opened TaskGraphs

  // What one call of execute_fn or of the dispatcher does.
  datatype Outcome = Fine | Refused(message: string) | Raised(text: string) {
    function Text(): string {
      match this
      case Fine => ""
      case Refused(message) => message
      case Raised(text) => text
    }
  }

  // What a run is given: the result of each attempt at each node, the clock read
  // at the start of each wave, and the nodes' fixed fields.
  datatype Env = Env(exec: (Id, int) -> Outcome, clock: nat -> real,
                     priority: map<Id, int>, deadline: map<Id, Option<real>>, tries: map<Id, int>)

  const UNSATISFIED := "dependency unsatisfied"
  const MISSED := "deadline missed before start"

  function MaxAttempts(retries: int, defaultRetries: int): int {
    1 + if retries != 0 then retries else defaultRetries
  }

  // ------------------------------------------------------------------
  // One node

  // The retry loop, from a given number of attempts already made.
  function Attempts(exec: (Id, int) -> Outcome, n: Id, max: int, st: RunState): RunState
    decreases max - st.attempts
  {
    if st.attempts >= max then st.(status := Failed)
    else
      var a := st.attempts + 1;
      var o := exec(n, a);
      if o.Fine? then st.(status := Completed, attempts := a)
      else Attempts(exec, n, max, RunState(Failed, a, o.Text()))
  }

  // The text that a success at the given attempt finds: that of the failure before it,
  // or what was there before the loop.
  function LastText(exec: (Id, int) -> Outcome, n: Id, st: RunState, attempts: int): string {
    if attempts == st.attempts + 1 then st.error else exec(n, attempts - 1).Text()
  }

  // The loop stops at the first attempt that succeeds and never passes the limit;
  // the node completes exactly when some attempt within the limit succeeds.
  lemma {:induction false} AttemptsStop(exec: (Id, int) -> Outcome, n: Id, max: int, st: RunState)
    ensures var r := Attempts(exec, n, max, st);
      && st.attempts <= r.attempts <= (if max < st.attempts then st.attempts else max)
      && (forall a :: st.attempts < a < r.attempts ==> !exec(n, a).Fine?)
      && (r.status == Completed <==> exists a :: st.attempts < a <= max && exec(n, a).Fine?)
      && (r.status == Completed ==> st.attempts < r.attempts && exec(n, r.attempts).Fine?)
      && (r.status == Completed ==> r.error == LastText(exec, n, st, r.attempts))
      && (r.status != Completed && max <= st.attempts ==> r == st.(status := Failed))
      && (r.status != Completed && max > st.attempts ==> r == RunState(Failed, max, exec(n, max).Text()))
    decreases max - st.attempts
  {
    if st.attempts < max {
      var a := st.attempts + 1;
      if !exec(n, a).Fine? {
        AttemptsStop(exec, n, max, RunState(Failed, a, exec(n, a).Text()));
      }
    }
  }

  // A completed node carries no error text exactly when its first attempt succeeded or
  // the last failure had no text.
  lemma {:induction false} CompletedWithoutErrorExactly(exec: (Id, int) -> Outcome, n: Id, max: int, st: RunState)
    requires st.attempts == 0 && st.error == ""
    ensures var r := Attempts(exec, n, max, st);
      r.status == Completed ==> (r.error == "" <==> r.attempts == 1 || exec(n, r.attempts - 1).Text() == "")
  {
    AttemptsStop(exec, n, max, st);
  }

  // The smallest case: one failure, one retry that succeeds, and the text stays.
  lemma {:induction false} ErrorStaysAfterSuccess(n: Id, text: string)
    ensures var exec := (m: Id, a: int) => if a == 1 then Raised(text) else Fine;
      Attempts(exec, n, 2, RunState(Running, 0, "")) == RunState(Completed, 2, text)
  {
  }

  predicate Missed(deadline: Option<real>, now: real) {
    deadline.Some? && now > deadline.value
  }

  // What a ready node becomes in a wave that starts at `now`.
  function NodeOutcome(env: Env, n: Id, now: real): RunState
    requires n in env.deadline && n in env.tries
  {
    if Missed(env.deadline[n], now) then RunState(Skipped, 0, MISSED)
    else Attempts(env.exec, n, env.tries[n], RunState(Running, 0, ""))
  }

  // ------------------------------------------------------------------
  // The whole graph

  ghost predicate Setup(g: Graph, env: Env) {
    && Closed(g) && (exists s :: TopologicalOrder(g, s))
    && env.priority.Keys == env.deadline.Keys == env.tries.Keys == g.Keys
  }

  // The rule for a node's final state: it depends only on whether its direct
  // dependencies completed, on the clock of the wave equal to its depth, and on
  // its own attempts.
  ghost predicate SettledAt(g: Graph, env: Env, st: map<Id, RunState>, n: Id)
    requires Setup(g, env) && n in g && n in st
  {
    st[n] ==
      if !DepsCompleted(g, st, n) then RunState(Skipped, 0, UNSATISFIED)
      else NodeOutcome(env, n, env.clock(Depth(g)[n]))
  }

  ghost predicate Final(g: Graph, env: Env, st: map<Id, RunState>)
    requires Setup(g, env)
  {
    st.Keys == g.Keys && forall n {:trigger SettledAt(g, env, st, n)} :: n in g ==> SettledAt(g, env, st, n)
  }

  // The node itself went wrong: its attempts failed or it missed its deadline.
  ghost predicate WentWrong(st: map<Id, RunState>, n: Id)
    requires n in st
  {
    st[n].status == Failed || (st[n].status == Skipped && st[n].error == MISSED)
  }

  // A proper ancestor of n went wrong.
  ghost predicate Tainted(g: Graph, st: map<Id, RunState>, n: Id)
    requires g.Keys <= st.Keys
  {
    exists p :: Chain(g, p) && |p| >= 2 && p[|p| - 1] == n && WentWrong(st, p[0])
  }

  lemma {:induction false} StatesPossible(g: Graph, env: Env, st: map<Id, RunState>, n: Id)
    requires Setup(g, env) && Final(g, env, st) && n in g
    ensures st[n].status == Completed || WentWrong(st, n) || st[n] == RunState(Skipped, 0, UNSATISFIED)
    ensures st[n].status == Completed ==> DepsCompleted(g, st, n)
    ensures WentWrong(st, n) ==> DepsCompleted(g, st, n)
    ensures st[n] == RunState(Skipped, 0, UNSATISFIED) <==> !DepsCompleted(g, st, n)
  {
    assert SettledAt(g, env, st, n);
    AttemptsStop(env.exec, n, env.tries[n], RunState(Running, 0, ""));
  }

  // A completed node has only completed ancestors.
  lemma {:induction false} CompletedBack(g: Graph, env: Env, st: map<Id, RunState>, p: seq<Id>)
    requires Setup(g, env) && Final(g, env, st) && Chain(g, p)
    requires |p| >= 2 && st[p[|p| - 1]] != RunState(Skipped, 0, UNSATISFIED)
    ensures st[p[0]].status == Completed
  {
    StatesPossible(g, env, st, p[|p| - 1]);
    var q := p[..|p| - 1];
    assert Chain(g, q);
    var d := p[|p| - 2];
    assert d in g[p[|p| - 1]];
    assert st[d].status == Completed;
    if |q| >= 2 {
      CompletedBack(g, env, st, q);
    }
  }

  // A node skipped for its dependencies has an ancestor that went wrong.
  lemma {:induction false} BlameExists(g: Graph, env: Env, st: map<Id, RunState>, n: Id) returns (p: seq<Id>)
    requires Setup(g, env) && Final(g, env, st) && n in g
    requires st[n] == RunState(Skipped, 0, UNSATISFIED)
    ensures Chain(g, p) && |p| >= 2 && p[|p| - 1] == n && WentWrong(st, p[0])
    decreases Depth(g)[n]
  {
    StatesPossible(g, env, st, n);
    var d :| d in g[n] && st[d].status != Completed;
    StatesPossible(g, env, st, d);
    if WentWrong(st, d) {
      p := [d, n];
    } else {
      assert Depth(g)[n] == 1 + MaxOf(g[n], Depth(g));
      var q := BlameExists(g, env, st, d);
      p := q + [n];
    }
  }

  // A node ends "skipped: dependency unsatisfied" exactly when some ancestor
  // failed or missed its deadline.
  lemma {:induction false} SkippedIffTainted(g: Graph, env: Env, st: map<Id, RunState>, n: Id)
    requires Setup(g, env) && Final(g, env, st) && n in g
    ensures st[n] == RunState(Skipped, 0, UNSATISFIED) <==> Tainted(g, st, n)
  {
    if st[n] == RunState(Skipped, 0, UNSATISFIED) {
      var p := BlameExists(g, env, st, n);
    } else if Tainted(g, st, n) {
      var p :| Chain(g, p) && |p| >= 2 && p[|p| - 1] == n && WentWrong(st, p[0]);
      CompletedBack(g, env, st, p);
    }
  }

  // With no failure and no missed deadline, everything completes.
  lemma {:induction false} NothingWrongAllComplete(g: Graph, env: Env, st: map<Id, RunState>)
    requires Setup(g, env) && Final(g, env, st)
    requires forall n :: n in g ==> !WentWrong(st, n)
    ensures forall n :: n in g ==> st[n].status == Completed
  {
    forall n | n in g
      ensures st[n].status == Completed
    {
      StatesPossible(g, env, st, n);
      SkippedIffTainted(g, env, st, n);
    }
  }

  // The rule leaves no freedom: a run has one possible final state, whatever the
  // priorities and the order within a wave.
  lemma {:induction false} FinalUnique(g: Graph, env: Env, st: map<Id, RunState>, st': map<Id, RunState>, n: Id)
    requires Setup(g, env) && Final(g, env, st) && Final(g, env, st') && n in g
    ensures st[n] == st'[n]
    decreases Depth(g)[n]
  {
    assert Depth(g)[n] == 1 + MaxOf(g[n], Depth(g));
    forall d | d in g[n]
      ensures st[d] == st'[d]
    {
      FinalUnique(g, env, st, st', d);
    }
    assert SettledAt(g, env, st, n) && SettledAt(g, env, st', n);
  }

  // ------------------------------------------------------------------
  // Waves

  const FRESH := RunState(Pending, 0, "")

  // After k waves the tasks no longer pending are those of depth at most k whose
  // dependencies all completed; they have their final state.
  ghost predicate ProgressAt(g: Graph, env: Env, st: map<Id, RunState>, pending: set<Id>, k: nat, n: Id)
    requires Setup(g, env) && n in g && n in st
  {
    && (n !in pending <==> DepsCompleted(g, st, n) && Depth(g)[n] <= k)
    && (n in pending ==> st[n] == FRESH)
    && (n !in pending ==> SettledAt(g, env, st, n))
  }

  ghost predicate Progress(g: Graph, env: Env, st: map<Id, RunState>, pending: set<Id>, k: nat)
    requires Setup(g, env)
  {
    && st.Keys == g.Keys && pending <= g.Keys
    && forall n {:trigger ProgressAt(g, env, st, pending, k, n)} :: n in g ==> ProgressAt(g, env, st, pending, k, n)
  }

  // The ready list of a wave: pending tasks whose dependencies all completed.
  ghost predicate Wave(g: Graph, st: map<Id, RunState>, pending: set<Id>, ready: set<Id>) {
    forall n {:trigger IsReady(g, st, n)} :: n in ready <==> n in pending && IsReady(g, st, n)
  }

  // Part of the wave has run, each node as if alone.
  ghost predicate RanAt(env: Env, st: map<Id, RunState>, st': map<Id, RunState>, ran: set<Id>, now: real, n: Id)
    requires n in st && n in st' && n in env.deadline && n in env.tries
  {
    st'[n] == if n in ran then NodeOutcome(env, n, now) else st[n]
  }

  ghost predicate Ran(g: Graph, env: Env, st: map<Id, RunState>, st': map<Id, RunState>, ran: set<Id>, now: real)
    requires Setup(g, env)
  {
    && st.Keys == st'.Keys == g.Keys
    && forall n {:trigger RanAt(env, st, st', ran, now, n)} :: n in g ==> RanAt(env, st, st', ran, now, n)
  }

  lemma {:induction false} RanOne(g: Graph, env: Env, st: map<Id, RunState>, st': map<Id, RunState>, ran: set<Id>,
      now: real, m: Id)
    requires Setup(g, env) && Ran(g, env, st, st', ran, now) && m in g
    ensures Ran(g, env, st, st'[m := NodeOutcome(env, m, now)], ran + {m}, now)
  {
    var st'' := st'[m := NodeOutcome(env, m, now)];
    forall n | n in g
      ensures RanAt(env, st, st'', ran + {m}, now, n)
    {
      assert RanAt(env, st, st', ran, now, n);
    }
  }

  // A ready task has depth exactly one more than the waves already run.
  lemma {:induction false} ReadyDepth(g: Graph, env: Env, st: map<Id, RunState>, pending: set<Id>, k: nat, n: Id)
    requires Setup(g, env) && Progress(g, env, st, pending, k) && n in pending && IsReady(g, st, n)
    ensures Depth(g)[n] == k + 1
  {
    var w := Depth(g);
    assert ProgressAt(g, env, st, pending, k, n);
    assert w[n] == 1 + MaxOf(g[n], w);
    forall d | d in g[n]
      ensures w[d] <= k
    {
      assert ProgressAt(g, env, st, pending, k, d);
    }
  }

  // A dependency keeps its state while the tasks of a wave run, if it completed
  // before the wave or is shallow enough to have been decided before it.
  lemma {:induction false} WaveKeepsDeps(g: Graph, env: Env, st: map<Id, RunState>, st': map<Id, RunState>,
      pending: set<Id>, ready: set<Id>, k: nat, n: Id)
    requires Setup(g, env) && Progress(g, env, st, pending, k) && Wave(g, st, pending, ready) && n in g
    requires Ran(g, env, st, st', ready, env.clock(k + 1))
    ensures DepsCompleted(g, st, n) ==> DepsCompleted(g, st', n)
    ensures DepsCompleted(g, st', n) && Depth(g)[n] <= k + 1 ==> DepsCompleted(g, st, n)
  {
    var w := Depth(g);
    assert w[n] == 1 + MaxOf(g[n], w);
    forall d | d in g[n] && (st[d].status == Completed || w[n] <= k + 1)
      ensures st'[d] == st[d]
    {
      assert RanAt(env, st, st', ready, env.clock(k + 1), d);
      assert ProgressAt(g, env, st, pending, k, d);
      if d in ready {
        assert IsReady(g, st, d);
        ReadyDepth(g, env, st, pending, k, d);
      }
    }
  }

  lemma {:induction false} WaveEnds(g: Graph, env: Env, st: map<Id, RunState>, st': map<Id, RunState>, pending: set<Id>,
      ready: set<Id>, k: nat)
    requires Setup(g, env) && Progress(g, env, st, pending, k) && Wave(g, st, pending, ready)
    requires Ran(g, env, st, st', ready, env.clock(k + 1))
    ensures Progress(g, env, st', pending - ready, k + 1)
  {
    forall n | n in g
      ensures ProgressAt(g, env, st', pending - ready, k + 1, n)
    {
      assert RanAt(env, st, st', ready, env.clock(k + 1), n);
      assert ProgressAt(g, env, st, pending, k, n);
      WaveKeepsDeps(g, env, st, st', pending, ready, k, n);
      assert n in ready <==> n in pending && IsReady(g, st, n);
      if n in ready {
        ReadyDepth(g, env, st, pending, k, n);
      }
    }
  }

  lemma {:induction false} ProgressStarts(g: Graph, env: Env, st: map<Id, RunState>)
    requires Setup(g, env) && st.Keys == g.Keys && forall n {:trigger st[n]} :: n in g ==> st[n] == FRESH
    ensures Progress(g, env, st, g.Keys, 0)
  {
    forall n | n in g
      ensures ProgressAt(g, env, st, g.Keys, 0, n)
    {
      assert st[n] == FRESH;
      assert Depth(g)[n] == 1 + MaxOf(g[n], Depth(g));
    }
  }

  // When no pending task is ready, skipping them all gives the final state.
  lemma {:induction false} StuckEnds(g: Graph, env: Env, st: map<Id, RunState>, st': map<Id, RunState>,
      pending: set<Id>, k: nat)
    requires Setup(g, env) && Progress(g, env, st, pending, k) && Wave(g, st, pending, {})
    requires st'.Keys == g.Keys
    requires forall n {:trigger st'[n]} :: n in g ==>
      st'[n] == if n in pending then RunState(Skipped, 0, UNSATISFIED) else st[n]
    ensures Final(g, env, st')
  {
    forall n | n in g
      ensures SettledAt(g, env, st', n)
    {
      assert ProgressAt(g, env, st, pending, k, n);
      assert st'[n] == if n in pending then RunState(Skipped, 0, UNSATISFIED) else st[n];
      forall d | d in g[n]
        ensures st[d].status == Completed <==> st'[d].status == Completed
      {
        assert ProgressAt(g, env, st, pending, k, d);
        assert st'[d] == if d in pending then RunState(Skipped, 0, UNSATISFIED) else st[d];
      }
      assert n in pending ==> !IsReady(g, st, n);
    }
  }

  // ------------------------------------------------------------------
  // Counters

  ghost function WithStatus(st: map<Id, RunState>, s: Status): set<Id> {
    set n | n in st && st[n].status == s
  }

  // The run's three counters and what is still pending account for every task.
  ghost predicate Counted(st: map<Id, RunState>, t: Tally) {
    && t.completed == |WithStatus(st, Completed)|
    && t.failed == |WithStatus(st, Failed)|
    && t.skipped == |WithStatus(st, Skipped)|
  }

  function Count(t: Tally, s: Status): Tally {
    match s
    case Completed => t.(completed := t.completed + 1)
    case Skipped => t.(skipped := t.skipped + 1)
    case _ => t.(failed := t.failed + 1)
  }

  lemma {:induction false} CountOne(st: map<Id, RunState>, n: Id, x: RunState, s: Status)
    requires n in st && st[n].status == Pending && s != Pending
    ensures |WithStatus(st[n := x], s)| == |WithStatus(st, s)| + if x.status == s then 1 else 0
  {
    var a, b := WithStatus(st, s), WithStatus(st[n := x], s);
    if x.status == s {
      assert b == a + {n};
    } else {
      assert b == a;
    }
  }

  lemma {:induction false} CountAll(st: map<Id, RunState>, n: Id, x: RunState, t: Tally)
    requires n in st && st[n].status == Pending && x.status in {Completed, Failed, Skipped} && Counted(st, t)
    ensures Counted(st[n := x], Count(t, x.status))
  {
    CountOne(st, n, x, Completed);
    CountOne(st, n, x, Failed);
    CountOne(st, n, x, Skipped);
  }

  lemma {:induction false} DisjointSizes<T>(a: set<T>, b: set<T>, c: set<T>)
    requires a !! b && a !! c && b !! c
    ensures |a + b + c| == |a| + |b| + |c|
  {
    assert |a + b| == |a| + |b|;
    assert (a + b) !! c;
  }

  // In a final state every task is completed, failed or skipped.
  lemma {:induction false} FinalAccountsForAll(g: Graph, env: Env, st: map<Id, RunState>)
    requires Setup(g, env) && Final(g, env, st)
    ensures |WithStatus(st, Completed)| + |WithStatus(st, Failed)| + |WithStatus(st, Skipped)| == |g|
  {
    var c, f, s := WithStatus(st, Completed), WithStatus(st, Failed), WithStatus(st, Skipped);
    forall n | n in g
      ensures n in c + f + s
    {
      StatesPossible(g, env, st, n);
    }
    assert c + f + s == g.Keys;
    DisjointSizes(c, f, s);
    assert |g| == |g.Keys|;
  }

  datatype Tally = Tally(completed: int, failed: int, skipped: int)

  // ------------------------------------------------------------------
  // The order in which nodes are executed

  // The node was run: its dependencies completed and its deadline had not passed.
  ghost predicate Executed(g: Graph, env: Env, st: map<Id, RunState>, n: Id)
    requires Setup(g, env) && n in g
  {
    DepsCompleted(g, st, n) && !Missed(env.deadline[n], env.clock(Depth(g)[n]))
  }

  // Waves in order; within a wave, higher priority first, then smaller id.
  ghost predicate Precedes(g: Graph, env: Env, a: Id, b: Id)
    requires Setup(g, env) && a in g && b in g
  {
    var w := Depth(g);
    w[a] < w[b] || (w[a] == w[b] && (env.priority[a] > env.priority[b] ||
      (env.priority[a] == env.priority[b] && IdLess(a, b))))
  }

  ghost predicate InRunOrder(g: Graph, env: Env, trace: seq<Id>)
    requires Setup(g, env)
  {
    && (forall n :: n in trace ==> n in g)
    && forall i, j {:trigger Precedes(g, env, trace[i], trace[j])} ::
      0 <= i < j < |trace| ==> Precedes(g, env, trace[i], trace[j])
  }

  lemma {:induction false} RunOrderSnoc(g: Graph, env: Env, trace: seq<Id>, n: Id)
    requires Setup(g, env) && InRunOrder(g, env, trace) && n in g
    requires forall m {:trigger Precedes(g, env, m, n)} :: m in trace ==> Precedes(g, env, m, n)
    ensures InRunOrder(g, env, trace + [n])
  {
    var t := trace + [n];
    forall i, j | 0 <= i < j < |t|
      ensures Precedes(g, env, t[i], t[j])
    {
      if j < |trace| {
        assert Precedes(g, env, trace[i], trace[j]);
      } else {
        assert t[i] in trace;
      }
    }
  }

  // The order within a wave: higher priority first, then smaller id.
  function RunsFirst(priority: map<Id, int>, a: Id, b: Id): bool {
    var pa, pb := if a in priority then priority[a] else 0, if b in priority then priority[b] else 0;
    pa > pb || (pa == pb && IdLeq(a, b))
  }

  lemma {:induction false} RunsFirstTotal(priority: map<Id, int>, s: seq<Id>)
    ensures TotalOn((a: Id, b: Id) => RunsFirst(priority, a, b), s)
  {
    forall x: Id, y: Id
      ensures RunsFirst(priority, x, y) || RunsFirst(priority, y, x)
    {
      StrTotal(x.name, y.name);
    }
    forall x: Id, y: Id, z: Id | RunsFirst(priority, x, y) && RunsFirst(priority, y, z)
      ensures RunsFirst(priority, x, z)
    {
      if IdLeq(x, y) && IdLeq(y, z) {
        StrTrans(x.name, y.name, z.name);
      }
    }
  }

  // The trace before a wave, extended by the part of the sorted ready list that
  // met its deadlines, stays in run order.
  lemma {:induction false} RunOrderInWave(g: Graph, env: Env, st: map<Id, RunState>, pending: set<Id>, k: nat,
      ready: seq<Id>, i: nat, before: seq<Id>, trace: seq<Id>)
    requires Setup(g, env) && Progress(g, env, st, pending, k) && Wave(g, st, pending, Elems(ready))
    requires NoDup(ready) && SortedBy((a: Id, b: Id) => RunsFirst(env.priority, a, b), ready) && i < |ready|
    requires InRunOrder(g, env, trace) && (forall m :: m in before ==> m in g && Depth(g)[m] <= k)
    requires forall m :: m in trace ==> m in before || m in ready[..i]
    ensures ready[i] in g && InRunOrder(g, env, trace + [ready[i]])
  {
    var n := ready[i];
    assert n in Elems(ready) && IsReady(g, st, n);
    ReadyDepth(g, env, st, pending, k, n);
    forall m | m in trace
      ensures Precedes(g, env, m, n)
    {
      if m !in before {
        var j :| 0 <= j < i && ready[j] == m;
        assert m in Elems(ready) && IsReady(g, st, m);
        ReadyDepth(g, env, st, pending, k, m);
        assert RunsFirst(env.priority, ready[j], ready[i]);
        NoDupAt(ready, j, i);
      }
    }
    RunOrderSnoc(g, env, trace, n);
  }

  lemma {:induction false} DepExecuted(g: Graph, env: Env, st: map<Id, RunState>, n: Id, d: Id)
    requires Setup(g, env) && Final(g, env, st) && n in g && Executed(g, env, st, n) && d in g[n]
    ensures Executed(g, env, st, d) && st[d].status == Completed && Depth(g)[d] < Depth(g)[n]
  {
    assert Depth(g)[n] == 1 + MaxOf(g[n], Depth(g));
    StatesPossible(g, env, st, d);
    assert SettledAt(g, env, st, d);
  }

  // A node is executed only after everything it depends on has been executed and
  // has completed.
  lemma {:induction false} ExecutedAfterDeps(g: Graph, env: Env, st: map<Id, RunState>, trace: seq<Id>, i: nat, d: Id)
    requires Setup(g, env) && Final(g, env, st) && InRunOrder(g, env, trace) && i < |trace|
    requires forall n :: n in trace <==> n in g && Executed(g, env, st, n)
    requires trace[i] in g && d in g[trace[i]]
    ensures d in trace[..i] && st[d].status == Completed
  {
    assert trace[i] in trace;
    DepExecuted(g, env, st, trace[i], d);
    assert d in trace;
    var j :| 0 <= j < |trace| && trace[j] == d;
    assert j > i ==> Precedes(g, env, trace[i], trace[j]);
    assert j < i;
    assert trace[..i][j] == d;
  }

  // ------------------------------------------------------------------
  // The number of waves

  ghost predicate WaveCount(g: Graph, env: Env, st: map<Id, RunState>, waves: nat)
    requires Setup(g, env) && st.Keys == g.Keys
  {
    && (forall n {:trigger DepsCompleted(g, st, n)} :: n in g && DepsCompleted(g, st, n) ==> Depth(g)[n] <= waves)
    && (waves > 0 ==> exists n :: n in g && DepsCompleted(g, st, n) && Depth(g)[n] == waves)
  }

  // When everything completes, the number of waves is the length of the longest
  // dependency chain.
  lemma {:induction false} WavesAreLongestChain(g: Graph, env: Env, st: map<Id, RunState>, waves: nat)
    requires Setup(g, env) && Final(g, env, st) && WaveCount(g, env, st, waves)
    requires forall n :: n in g ==> st[n].status == Completed
    ensures forall p :: Chain(g, p) ==> |p| <= waves
    ensures g.Keys != {} ==> exists p :: Chain(g, p) && |p| == waves
  {
    forall p | Chain(g, p)
      ensures |p| <= waves
    {
      DepthBounds(g, Depth(g), p);
      assert DepsCompleted(g, st, p[|p| - 1]);
    }
    if n :| n in g {
      assert Depth(g)[n] == 1 + MaxOf(g[n], Depth(g));
      assert DepsCompleted(g, st, n);
      var m :| m in g && DepsCompleted(g, st, m) && Depth(g)[m] == waves;
      var p := DepthAttained(g, Depth(g), m);
    }
  }

  // ------------------------------------------------------------------
  // The end of a run

  // Between waves: what has been executed, and that the last wave was not empty.
  ghost predicate Traced(g: Graph, env: Env, pending: set<Id>, trace: seq<Id>, k: nat)
    requires Setup(g, env)
  {
    && InRunOrder(g, env, trace)
    && (forall n :: n in trace <==> n in g && n !in pending && !Missed(env.deadline[n], env.clock(Depth(g)[n])))
    && (k > 0 ==> exists n :: n in g && n !in pending && Depth(g)[n] == k)
  }

  // Everything a finished run promises about the nodes.
  ghost predicate RunDone(g: Graph, env: Env, st: map<Id, RunState>, trace: seq<Id>, waves: nat) {
    && Setup(g, env) && Final(g, env, st)
    && InRunOrder(g, env, trace) && (forall n :: n in trace <==> n in g && Executed(g, env, st, n))
    && WaveCount(g, env, st, waves)
  }

  // What the deadline of a node does, with the clock of the wave of its depth: the node
  // runs unless its dependencies fell short or its deadline lies before that reading.
  ghost predicate PunctualAt(g: Graph, env: Env, st: map<Id, RunState>, trace: seq<Id>, n: Id)
    requires Setup(g, env) && n in g && n in st
  {
    var late := env.deadline[n].Some? && env.deadline[n].value < env.clock(Depth(g)[n]);
    && (n in trace <==> DepsCompleted(g, st, n) && !late)
    && (st[n] == RunState(Skipped, 0, "deadline missed before start") <==> DepsCompleted(g, st, n) && late)
    && (st[n] == RunState(Skipped, 0, "dependency unsatisfied") <==> !DepsCompleted(g, st, n))
    && (n in trace ==> AttemptsWithin(env.exec, n, env.tries[n], st[n]))
  }

  ghost predicate Punctual(g: Graph, env: Env, st: map<Id, RunState>, trace: seq<Id>)
    requires Setup(g, env)
  {
    st.Keys == g.Keys && forall n {:trigger PunctualAt(g, env, st, trace, n)} ::
      n in g ==> PunctualAt(g, env, st, trace, n)
  }

  // A node that ran completed at its first success within the limit, or failed at the
  // limit with the text of the last failure.
  ghost predicate AttemptsWithin(exec: (Id, int) -> Outcome, n: Id, limit: int, r: RunState) {
    && (r.status == Completed <==> exists a {:trigger exec(n, a)} :: 1 <= a <= limit && exec(n, a).Fine?)
    && (r.status == Completed ==> 1 <= r.attempts <= limit && exec(n, r.attempts).Fine?)
    && (r.status == Completed ==> forall a {:trigger exec(n, a)} :: 1 <= a < r.attempts ==> !exec(n, a).Fine?)
    && (r.status != Completed && limit > 0 ==> r == RunState(Failed, limit, exec(n, limit).Text()))
    && (r.status != Completed && limit <= 0 ==> r == RunState(Failed, 0, ""))
  }

  lemma {:induction false} RunIsPunctual(g: Graph, env: Env, st: map<Id, RunState>, trace: seq<Id>, waves: nat)
    requires RunDone(g, env, st, trace, waves)
    ensures Punctual(g, env, st, trace)
  {
    forall n | n in g
      ensures PunctualAt(g, env, st, trace, n)
    {
      assert SettledAt(g, env, st, n);
      AttemptsStop(env.exec, n, env.tries[n], RunState(Running, 0, ""));
    }
  }

  lemma {:induction false} TracedAfterWave(g: Graph, env: Env, st: map<Id, RunState>, pending: set<Id>, ready: set<Id>,
      k: nat, before: seq<Id>, trace: seq<Id>)
    requires Setup(g, env) && Progress(g, env, st, pending, k) && Wave(g, st, pending, ready)
    requires ready != {} && Traced(g, env, pending, before, k) && InRunOrder(g, env, trace)
    requires forall n :: n in trace <==>
      n in before || (n in ready && n in g && !Missed(env.deadline[n], env.clock(k + 1)))
    ensures Traced(g, env, pending - ready, trace, k + 1)
  {
    forall n | n in ready
      ensures n in g && n in pending && Depth(g)[n] == k + 1
    {
      assert IsReady(g, st, n);
      ReadyDepth(g, env, st, pending, k, n);
    }
    var m :| m in ready;
    assert m in g && m !in pending - ready && Depth(g)[m] == k + 1;
  }

  lemma {:induction false} EndOfRun(g: Graph, env: Env, st: map<Id, RunState>, st': map<Id, RunState>, pending: set<Id>,
      k: nat, trace: seq<Id>)
    requires Setup(g, env) && Progress(g, env, st, pending, k) && Wave(g, st, pending, {})
    requires Traced(g, env, pending, trace, k) && st'.Keys == g.Keys
    requires forall n {:trigger st'[n]} :: n in g ==>
      st'[n] == if n in pending then RunState(Skipped, 0, UNSATISFIED) else st[n]
    ensures RunDone(g, env, st', trace, k)
  {
    StuckEnds(g, env, st, st', pending, k);
    forall n | n in g
      ensures DepsCompleted(g, st', n) <==> n !in pending
      ensures n !in pending ==> Depth(g)[n] <= k
    {
      assert ProgressAt(g, env, st, pending, k, n);
      assert SettledAt(g, env, st', n);
      assert st'[n] == if n in pending then RunState(Skipped, 0, UNSATISFIED) else st[n];
      AttemptsStop(env.exec, n, env.tries[n], RunState(Running, 0, ""));
      if n !in pending {
        assert SettledAt(g, env, st, n);
      }
    }
  }
}
