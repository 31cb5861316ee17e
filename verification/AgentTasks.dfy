// TaskScheduler (src/cadgenesis/agents/scheduler.py) and the loop that drives it,
// AgentCoordinator.run_batch and run_all (src/cadgenesis/agents/coordinator.py).
module AgentTasks {
  import opened Results
  import opened Seqs
  import opened Graphs
  import opened Kahn

  datatype Status = Pending | Ready | Running | Completed | Failed

  datatype AgentResult = AgentResult(taskId: Id, ok: bool)

  datatype SchedulerError = AlreadySubmitted | UnknownTask

  type Board = map<Id, Status>

  // ------------------------------------------------------------------
  // Which tasks may run

  predicate DepsMet(g: Graph, st: Board, n: Id)
    requires n in g
  {
    forall d :: d in g[n] ==> d in st && st[d] == Completed
  }

  predicate Runnable(g: Graph, st: Board, n: Id) {
    n in g && n in st && st[n] == Pending && DepsMet(g, st, n)
  }

  function PriorityOf(priority: map<Id, int>, n: Id): int {
    if n in priority then priority[n] else 0
  }

  function Urgent(priority: map<Id, int>, a: Id, b: Id): bool {
    PriorityOf(priority, a) >= PriorityOf(priority, b)
  }

  function Limit<T>(s: seq<T>, max: Option<int>): (r: seq<T>)
    ensures r <= s
  {
    match max
    case None => s
    case Some(k) => s[..if k <= 0 then 0 else if k < |s| then k else |s|]
  }

  // Runnable tasks by descending priority, ties in submission order.
  function AllNext(ids: seq<Id>, g: Graph, st: Board, priority: map<Id, int>): (r: seq<Id>)
    ensures forall n {:trigger Runnable(g, st, n)} :: n in r ==> Runnable(g, st, n)
  {
    var ready := Filter(ids, (n: Id) => Runnable(g, st, n));
    SameElems(Sort((a: Id, b: Id) => Urgent(priority, a, b), ready), ready);
    Sort((a: Id, b: Id) => Urgent(priority, a, b), ready)
  }

  // next_tasks
  function NextTasks(ids: seq<Id>, g: Graph, st: Board, priority: map<Id, int>, max: Option<int>): seq<Id> {
    Limit(AllNext(ids, g, st, priority), max)
  }

  lemma {:induction false} AllNextOrder(ids: seq<Id>, g: Graph, st: Board, priority: map<Id, int>)
    requires NoDup(ids) && Elems(ids) == g.Keys
    ensures var r := AllNext(ids, g, st, priority);
      && NoDup(r) && (forall n {:trigger Runnable(g, st, n)} :: Runnable(g, st, n) ==> n in r)
  {
    var ready := Filter(ids, (n: Id) => Runnable(g, st, n));
    var le := (a: Id, b: Id) => Urgent(priority, a, b);
    FilterNoDup(ids, (n: Id) => Runnable(g, st, n));
    SameElems(Sort(le, ready), ready);
    forall n | Runnable(g, st, n)
      ensures n in AllNext(ids, g, st, priority)
    {
      assert n in Elems(ids);
    }
  }

  // Higher priorities come first, and tasks of one priority in the order of submission.
  ghost predicate UrgentFirst(ids: seq<Id>, priority: map<Id, int>, batch: seq<Id>) {
    forall i: nat, j: nat {:trigger UrgentPair(ids, priority, batch, i, j)} ::
      i < j < |batch| ==> UrgentPair(ids, priority, batch, i, j)
  }

  ghost predicate UrgentPair(ids: seq<Id>, priority: map<Id, int>, batch: seq<Id>, i: nat, j: nat)
    requires i < j < |batch|
  {
    && batch[i] in priority && batch[j] in priority && priority[batch[i]] >= priority[batch[j]]
    && (priority[batch[i]] == priority[batch[j]] ==> Ahead(ids, batch[i], batch[j]))
  }

  lemma {:induction false} UrgentTotal(priority: map<Id, int>, s: seq<Id>)
    ensures TotalOn((a: Id, b: Id) => Urgent(priority, a, b), s)
  {
  }

  lemma {:induction false} AllNextUrgent(ids: seq<Id>, g: Graph, st: Board, priority: map<Id, int>)
    requires NoDup(ids) && Elems(ids) == g.Keys == priority.Keys
    ensures UrgentFirst(ids, priority, AllNext(ids, g, st, priority))
  {
    var all, le := AllNext(ids, g, st, priority), (a: Id, b: Id) => Urgent(priority, a, b);
    var p := (n: Id) => Runnable(g, st, n);
    var ready := Filter(ids, p);
    FilterNoDup(ids, p);
    SameElems(all, ready);
    UrgentTotal(priority, ready);
    SortSorts(le, ready);
    forall i: nat, j: nat | i < j < |all|
      ensures UrgentPair(ids, priority, all, i, j)
    {
      assert all[i] in all && all[j] in all;
      assert Runnable(g, st, all[i]) && Runnable(g, st, all[j]) && le(all[i], all[j]);
      NoDupAt(all, i, j);
      if priority[all[i]] == priority[all[j]] {
        AheadIn(all, i, j);
        SortTies(le, ready, all[i], all[j]);
        FilterAhead(ids, p, all[i], all[j]);
      }
    }
  }

  // What a batch leaves out is no more urgent than anything in it.
  ghost predicate LeftIsLess(g: Graph, st: Board, priority: map<Id, int>, batch: seq<Id>) {
    forall n, i {:trigger Runnable(g, st, n), batch[i]} :: 0 <= i < |batch| && Runnable(g, st, n) && n !in batch ==>
      n in priority && batch[i] in priority && priority[batch[i]] >= priority[n]
  }

  ghost predicate WellChosen(ids: seq<Id>, g: Graph, st: Board, priority: map<Id, int>, batch: seq<Id>) {
    UrgentFirst(ids, priority, batch) && LeftIsLess(g, st, priority, batch)
  }

  // A batch is a prefix of the runnable tasks, as long as the maximum allows; of the
  // tasks in and after it, those of higher priority come first, and those of one
  // priority in the order of submission.
  lemma {:induction false} NextTasksOrder(ids: seq<Id>, g: Graph, st: Board, priority: map<Id, int>, max: Option<int>)
    requires NoDup(ids) && Elems(ids) == g.Keys == priority.Keys
    ensures var all, r := AllNext(ids, g, st, priority), NextTasks(ids, g, st, priority, max);
      && r <= all && (max.None? || max.value >= |all| ==> r == all)
      && (max.Some? && max.value < |all| ==> |r| == if max.value > 0 then max.value else 0)
      && NoDup(all) && (forall n {:trigger Runnable(g, st, n)} :: n in all <==> Runnable(g, st, n))
      && UrgentFirst(ids, priority, all) && WellChosen(ids, g, st, priority, r)
  {
    var all, r := AllNext(ids, g, st, priority), NextTasks(ids, g, st, priority, max);
    AllNextOrder(ids, g, st, priority);
    AllNextUrgent(ids, g, st, priority);
    forall i: nat, j: nat | i < j < |r|
      ensures UrgentPair(ids, priority, r, i, j)
    {
      assert UrgentPair(ids, priority, all, i, j);
    }
    forall n, i: nat {:trigger Runnable(g, st, n), r[i]} | i < |r| && Runnable(g, st, n) && n !in r
      ensures n in priority && r[i] in priority && priority[r[i]] >= priority[n]
    {
      var j: nat :| j < |all| && all[j] == n;
      assert !(j < |r|);
      assert UrgentPair(ids, priority, all, i, j);
    }
  }

  // A batch has no repeated task, and all its tasks are runnable.
  lemma {:induction false} BatchRunnable(ids: seq<Id>, g: Graph, st: Board, priority: map<Id, int>, max: Option<int>)
    requires NoDup(ids) && Elems(ids) == g.Keys
    ensures var r := NextTasks(ids, g, st, priority, max);
      NoDup(r) && forall j {:trigger Runnable(g, st, r[j])} :: 0 <= j < |r| ==> Runnable(g, st, r[j])
  {
    AllNextOrder(ids, g, st, priority);
    var s, r := AllNext(ids, g, st, priority), NextTasks(ids, g, st, priority, max);
    NoDupCut(s, 0, |r|);
    assert s[0..|r|] == r;
    forall j | 0 <= j < |r|
      ensures Runnable(g, st, r[j])
    {
      assert s[j] in s;
    }
  }

  // Nothing is next exactly when no task is runnable.
  lemma {:induction false} NothingNext(ids: seq<Id>, g: Graph, st: Board, priority: map<Id, int>)
    requires NoDup(ids) && Elems(ids) == g.Keys
    ensures NextTasks(ids, g, st, priority, None) == [] <==> Quiescent(g, st)
  {
    AllNextOrder(ids, g, st, priority);
    var s := AllNext(ids, g, st, priority);
    if s != [] {
      assert s[0] in s;
      assert Runnable(g, st, s[0]);
    }
  }

  // ------------------------------------------------------------------
  // Runs.  ok(n) is the outcome of dispatching task n.

  // A set of tasks that holds what was completed at the start, and every task that
  // was pending, succeeds when dispatched and has all its dependencies in the set.
  ghost predicate Forced(g: Graph, st0: Board, ok: Id -> bool, done: set<Id>, n: Id)
    requires n in g && n in st0
  {
    (st0[n] == Completed ==> n in done) &&
    (st0[n] == Pending && ok(n) && Elems(g[n]) <= done ==> n in done)
  }

  ghost predicate Inductive(g: Graph, st0: Board, ok: Id -> bool, done: set<Id>)
    requires g.Keys == st0.Keys
  {
    forall n {:trigger Forced(g, st0, ok, done, n)} :: n in g ==> Forced(g, st0, ok, done, n)
  }

  ghost function CompletedIn(st: Board): set<Id> {
    set n | n in st && st[n] == Completed
  }

  // How a run changes one task: dispatched tasks were pending with their
  // dependencies completed, and end by their outcome; the others do not move.
  ghost predicate MovedAt(g: Graph, st0: Board, ok: Id -> bool, st: Board, log: set<Id>, n: Id)
    requires n in g && n in st0 && n in st
  {
    if n in log then st0[n] == Pending && DepsMet(g, st, n) && st[n] == (if ok(n) then Completed else Failed)
    else st[n] == st0[n]
  }

  // A dispatched task follows its dependencies: each was completed at the start or
  // was dispatched earlier and succeeded.
  ghost predicate InTurn(g: Graph, st0: Board, ok: Id -> bool, log: seq<Id>, i: nat)
    requires i < |log| && g.Keys == st0.Keys
  {
    log[i] in g && forall d :: d in g[log[i]] ==> d in g && (st0[d] == Completed || (d in log[..i] && ok(d)))
  }

  // What holds throughout a run that started on the board st0 and has dispatched
  // the tasks of the log.
  ghost predicate Going(g: Graph, st0: Board, ok: Id -> bool, st: Board, log: seq<Id>) {
    && g.Keys == st0.Keys == st.Keys && NoDup(log) && Elems(log) <= g.Keys
    && (forall n {:trigger MovedAt(g, st0, ok, st, Elems(log), n)} :: n in g ==> MovedAt(g, st0, ok, st, Elems(log), n))
    && (forall i: nat {:trigger InTurn(g, st0, ok, log, i)} :: i < |log| ==> InTurn(g, st0, ok, log, i))
    && (forall x {:trigger Inductive(g, st0, ok, x)} :: Inductive(g, st0, ok, x) ==> CompletedIn(st) <= x)
  }

  ghost predicate Quiescent(g: Graph, st: Board) {
    forall n {:trigger Runnable(g, st, n)} :: !Runnable(g, st, n)
  }

  function Outcome(ok: Id -> bool, n: Id): Status {
    if ok(n) then Completed else Failed
  }

  lemma {:induction false} GoingStarts(g: Graph, st0: Board, ok: Id -> bool)
    requires g.Keys == st0.Keys
    ensures Going(g, st0, ok, st0, [])
  {
    forall n | n in g
      ensures MovedAt(g, st0, ok, st0, Elems([]), n)
    {
    }
    forall x | Inductive(g, st0, ok, x)
      ensures CompletedIn(st0) <= x
    {
      forall n | n in CompletedIn(st0)
        ensures n in x
      {
        assert Forced(g, st0, ok, x, n);
      }
    }
  }

  lemma {:induction false} GoingStep(g: Graph, st0: Board, ok: Id -> bool, st: Board, log: seq<Id>, n: Id)
    requires Going(g, st0, ok, st, log) && Runnable(g, st, n)
    ensures Going(g, st0, ok, st[n := Outcome(ok, n)], log + [n])
  {
    var st', log' := st[n := Outcome(ok, n)], log + [n];
    ElemsSnoc(log, n);
    assert MovedAt(g, st0, ok, st, Elems(log), n);
    assert n !in Elems(log);
    NoDupSnoc(log, n);
    forall m | m in g
      ensures MovedAt(g, st0, ok, st', Elems(log'), m)
    {
      assert MovedAt(g, st0, ok, st, Elems(log), m);
    }
    TurnStep(g, st0, ok, st, log, n);
    forall x | Inductive(g, st0, ok, x)
      ensures CompletedIn(st') <= x
    {
      assert CompletedIn(st) <= x;
      assert forall d :: d in Elems(g[n]) ==> d in CompletedIn(st);
      assert Forced(g, st0, ok, x, n);
    }
  }

  lemma {:induction false} TurnStep(g: Graph, st0: Board, ok: Id -> bool, st: Board, log: seq<Id>, n: Id)
    requires Going(g, st0, ok, st, log) && Runnable(g, st, n)
    ensures forall i: nat {:trigger InTurn(g, st0, ok, log + [n], i)} :: i < |log| + 1 ==>
      InTurn(g, st0, ok, log + [n], i)
  {
    var log' := log + [n];
    forall i: nat | i < |log'|
      ensures InTurn(g, st0, ok, log', i)
    {
      if i < |log| {
        assert InTurn(g, st0, ok, log, i);
        assert log'[..i] == log[..i];
      } else {
        assert log'[..i] == log;
        forall d | d in g[n]
          ensures d in g && (st0[d] == Completed || (d in log && ok(d)))
        {
          assert MovedAt(g, st0, ok, st, Elems(log), d);
        }
      }
    }
  }

  // ------------------------------------------------------------------
  // What a finished run has computed

  // The completed tasks are the least set that holds those completed at the start
  // and every pending task that succeeds once all its dependencies are in the set.
  lemma {:induction false} CompletedIsLeastFixpoint(g: Graph, st0: Board, ok: Id -> bool, st: Board, log: seq<Id>)
    requires Going(g, st0, ok, st, log) && Quiescent(g, st)
    ensures Inductive(g, st0, ok, CompletedIn(st))
    ensures forall x {:trigger Inductive(g, st0, ok, x)} :: Inductive(g, st0, ok, x) ==> CompletedIn(st) <= x
  {
    forall n | n in g
      ensures Forced(g, st0, ok, CompletedIn(st), n)
    {
      assert MovedAt(g, st0, ok, st, Elems(log), n);
      assert !Runnable(g, st, n);
      if Elems(g[n]) <= CompletedIn(st) {
        forall d | d in g[n]
          ensures d in st && st[d] == Completed
        {
          assert d in Elems(g[n]);
        }
      }
    }
  }

  // The final status of every task; in particular a task is dispatched exactly when
  // it was pending and all its dependencies ended up completed, and then once.
  lemma {:induction false} FinalStatus(g: Graph, st0: Board, ok: Id -> bool, st: Board, log: seq<Id>, n: Id)
    requires Going(g, st0, ok, st, log) && Quiescent(g, st) && n in g
    ensures st[n] == if st0[n] == Pending && DepsMet(g, st, n) then Outcome(ok, n) else st0[n]
    ensures n in log <==> st0[n] == Pending && DepsMet(g, st, n)
  {
    assert MovedAt(g, st0, ok, st, Elems(log), n);
    assert !Runnable(g, st, n);
  }

  // Priorities, batch sizes and batch order make no difference to the final board.
  lemma {:induction false} FinalBoardUnique(g: Graph, st0: Board, ok: Id -> bool, st: Board, log: seq<Id>, st': Board,
      log': seq<Id>)
    requires Going(g, st0, ok, st, log) && Quiescent(g, st)
    requires Going(g, st0, ok, st', log') && Quiescent(g, st')
    ensures st == st' && Elems(log) == Elems(log')
  {
    CompletedIsLeastFixpoint(g, st0, ok, st, log);
    CompletedIsLeastFixpoint(g, st0, ok, st', log');
    assert CompletedIn(st) == CompletedIn(st');
    forall n | n in g
      ensures st[n] == st'[n] && (n in log <==> n in log')
    {
      SameDeps(g, st, st', n);
      FinalStatus(g, st0, ok, st, log, n);
      FinalStatus(g, st0, ok, st', log', n);
    }
    assert Elems(log) <= g.Keys && Elems(log') <= g.Keys;
  }

  lemma {:induction false} SameDeps(g: Graph, st: Board, st': Board, n: Id)
    requires n in g && CompletedIn(st) == CompletedIn(st')
    ensures DepsMet(g, st, n) <==> DepsMet(g, st', n)
  {
    forall d
      ensures d in st && st[d] == Completed <==> d in st' && st'[d] == Completed
    {
      assert d in CompletedIn(st) <==> d in CompletedIn(st');
    }
  }

  // Without cycles, missing dependencies or failures, nothing stays pending.
  lemma {:induction false} NothingStaysPending(g: Graph, st0: Board, ok: Id -> bool, st: Board, log: seq<Id>)
    requires Going(g, st0, ok, st, log) && Quiescent(g, st)
    requires Closed(g) && !Cyclic(g) && forall n :: n in g ==> ok(n) && (st0[n] == Pending || st0[n] == Completed)
    ensures forall n :: n in g ==> st[n] == Completed
  {
    var rest := set n | n in g && st[n] != Completed;
    if rest != {} {
      forall n | n in rest
        ensures WaitsOn(g, n, rest)
      {
        FinalStatus(g, st0, ok, st, log, n);
        assert !DepsMet(g, st, n);
      }
      StuckMeansCyclic(g, rest);
    }
    forall n | n in g
      ensures st[n] == Completed
    {
      assert n !in rest;
    }
  }

  function ResultsOf(log: seq<Id>, ok: Id -> bool): seq<AgentResult> {
    seq(|log|, i requires 0 <= i < |log| => AgentResult(log[i], ok(log[i])))
  }

  // ------------------------------------------------------------------
  // has_cycles

  // The listed dependencies that were submitted.
  function Known(g: Graph): Graph {
    map n | n in g :: Filter(g[n], (d: Id) => d in g)
  }

  lemma {:induction false} KnownSameCycles(g: Graph)
    ensures Closed(Known(g)) && (Cyclic(Known(g)) <==> Cyclic(g))
  {
    var k := Known(g);
    if p :| Chain(g, p) && |p| >= 2 && p[0] == p[|p| - 1] {
      assert Chain(k, p);
    }
    if p :| Chain(k, p) && |p| >= 2 && p[0] == p[|p| - 1] {
      assert Chain(g, p);
    }
  }

  // ------------------------------------------------------------------

  class AgentTask {
    const taskId: Id
    const priority: int
    const dependsOn: seq<Id>
    var status: Status

    constructor (taskId: Id, priority: int, dependsOn: seq<Id>)
      ensures this.taskId == taskId && this.priority == priority && this.dependsOn == dependsOn && status == Pending
    {
      this.taskId, this.priority, this.dependsOn, status := taskId, priority, dependsOn, Pending;
    }
  }

  class TaskScheduler {
    // The dictionary of tasks: its keys in insertion order, and its entries.
    var ids: seq<Id>
    var tasks: map<Id, AgentTask>

    ghost predicate Valid()
      reads this
    {
      NoDup(ids) && Elems(ids) == tasks.Keys && forall id :: id in tasks ==> tasks[id].taskId == id
    }

    function Deps(): Graph
      reads this
    {
      map id | id in tasks :: tasks[id].dependsOn
    }

    function Priorities(): map<Id, int>
      reads this
    {
      map id | id in tasks :: tasks[id].priority
    }

    function Statuses(): Board
      reads this, tasks.Values
    {
      map id | id in tasks :: tasks[id].status
    }

    constructor ()
      ensures Valid() && ids == [] && tasks == map[]
    {
      ids, tasks := [], map[];
    }

    method Submit(task: AgentTask) returns (r: Result<Id, SchedulerError>)
      requires Valid()
      modifies this
      ensures Valid()
      ensures r.Ok? <==> task.taskId !in old(tasks)
      ensures r.Ok? ==>
        r.value == task.taskId && ids == old(ids) + [task.taskId] && tasks == old(tasks)[task.taskId := task]
      ensures r.Err? ==> r.error == AlreadySubmitted && ids == old(ids) && tasks == old(tasks)
    {
      if task.taskId in tasks {
        return Err(AlreadySubmitted);
      }
      assert task.taskId !in Elems(ids);
      ElemsSnoc(ids, task.taskId);
      NoDupSnoc(ids, task.taskId);
      ids := ids + [task.taskId];
      tasks := tasks[task.taskId := task];
      return Ok(task.taskId);
    }

    // mark_ready, mark_running, mark_completed and mark_failed all go through here.
    method UpdateStatus(taskId: Id, status: Status) returns (r: Result<(), SchedulerError>)
      requires Valid()
      modifies if taskId in tasks then {tasks[taskId]} else {}
      ensures r.Ok? <==> taskId in tasks
      ensures Statuses() == if taskId in tasks then old(Statuses())[taskId := status] else old(Statuses())
    {
      if taskId !in tasks {
        return Err(UnknownTask);
      }
      var task := tasks[taskId];
      assert forall id :: id in tasks && id != taskId ==> tasks[id].taskId != task.taskId;
      task.status := status;
      return Ok(());
    }

    function Next(max: Option<int>): seq<Id>
      requires Valid()
      reads this, tasks.Values
    {
      NextTasks(ids, Deps(), Statuses(), Priorities(), max)
    }

    // Kahn's algorithm over the edges between submitted tasks, with repeats.
    method HasCycles() returns (r: bool)
      requires Valid()
      ensures r <==> Cyclic(Deps())
    {
      var g := Deps();
      r := CycleTest(ids, g);
    }
  }

  method CycleTest(ids: seq<Id>, g: Graph) returns (r: bool)
    requires NoDup(ids) && Elems(ids) == g.Keys
    ensures r <==> Cyclic(g)
  {
    var edges := Known(g);
    var adjacency, indegree := BuildEdges(ids, edges);
    var order := DrainQueue(ids, edges, adjacency, indegree);
    ExhaustedDecides(edges, order);
    KnownSameCycles(g);
    SameKeysSameSize(g, edges);
    return |order| != |g|;
  }

  class AgentCoordinator {
    const scheduler: TaskScheduler

    constructor (scheduler: TaskScheduler)
      ensures this.scheduler == scheduler
    {
      this.scheduler := scheduler;
    }

    // One task: marked running, dispatched, marked by its outcome.
    method RunTask(n: Id, ok: Id -> bool) returns (result: AgentResult)
      requires scheduler.Valid() && n in scheduler.tasks
      modifies scheduler.tasks[n]
      ensures scheduler.Statuses() == old(scheduler.Statuses())[n := Outcome(ok, n)]
      ensures result == AgentResult(n, ok(n))
    {
      var _ := scheduler.UpdateStatus(n, Running);
      result := AgentResult(n, ok(n));
      var _ := scheduler.UpdateStatus(n, if result.ok then Completed else Failed);
    }

    // run_batch: the next ready tasks in order, each dispatched once; none that is left
    // out is more urgent.
    method RunBatch(max: Option<int>, ok: Id -> bool) returns (results: seq<AgentResult>, ghost log: seq<Id>)
      requires scheduler.Valid()
      modifies scheduler.tasks.Values
      ensures Going(scheduler.Deps(), old(scheduler.Statuses()), ok, scheduler.Statuses(), log)
      ensures log == old(scheduler.Next(max)) && results == ResultsOf(log, ok)
      ensures WellChosen(scheduler.ids, scheduler.Deps(), old(scheduler.Statuses()),
        map id | id in scheduler.tasks :: scheduler.tasks[id].priority, log)
    {
      var tasks := scheduler.Next(max);
      log := tasks;
      assert scheduler.Priorities() == map id | id in scheduler.tasks :: scheduler.tasks[id].priority;
      NextTasksOrder(scheduler.ids, scheduler.Deps(), scheduler.Statuses(), scheduler.Priorities(), max);
      BatchStarts(scheduler.ids, scheduler.Deps(), scheduler.Statuses(), scheduler.Priorities(), ok, max);
      results := Dispatch(tasks, ok);
    }

    // The loop of run_batch.
    method Dispatch(tasks: seq<Id>, ok: Id -> bool) returns (results: seq<AgentResult>)
      requires scheduler.Valid() && InBatch(scheduler.Deps(), scheduler.Statuses(), ok, scheduler.Statuses(), tasks, 0)
      modifies scheduler.tasks.Values
      ensures Going(scheduler.Deps(), old(scheduler.Statuses()), ok, scheduler.Statuses(), tasks)
      ensures results == ResultsOf(tasks, ok)
    {
      ghost var g, st0 := scheduler.Deps(), scheduler.Statuses();
      results := [];
      var i := 0;
      while i < |tasks|
        invariant 0 <= i <= |tasks| && results == ResultsOf(tasks[..i], ok)
        invariant InBatch(g, st0, ok, scheduler.Statuses(), tasks, i)
      {
        BatchStep(g, st0, ok, scheduler.Statuses(), tasks, i);
        var result := RunTask(tasks[i], ok);
        results := results + [result];
        i := i + 1;
      }
      assert tasks[..|tasks|] == tasks;
    }

    // run_all: batches until nothing is ready.
    method RunAll(ok: Id -> bool) returns (results: seq<AgentResult>, ghost log: seq<Id>)
      requires scheduler.Valid()
      modifies scheduler.tasks.Values
      ensures Going(scheduler.Deps(), old(scheduler.Statuses()), ok, scheduler.Statuses(), log)
      ensures Quiescent(scheduler.Deps(), scheduler.Statuses())
      ensures Inductive(scheduler.Deps(), old(scheduler.Statuses()), ok, CompletedIn(scheduler.Statuses()))
      ensures forall x {:trigger Inductive(scheduler.Deps(), old(scheduler.Statuses()), ok, x)} ::
        Inductive(scheduler.Deps(), old(scheduler.Statuses()), ok, x) ==> CompletedIn(scheduler.Statuses()) <= x
      ensures results == ResultsOf(log, ok)
    {
      ghost var g, st0 := scheduler.Deps(), scheduler.Statuses();
      results, log := [], [];
      GoingStarts(g, st0, ok);
      while true
        invariant Going(g, st0, ok, scheduler.Statuses(), log) && results == ResultsOf(log, ok)
        decreases |g| - |log|
      {
        var batch := scheduler.Next(None);
        ghost var st := scheduler.Statuses();
        NothingNext(scheduler.ids, g, st, scheduler.Priorities());
        if batch == [] {
          break;
        }
        assert Limit(batch, Some(|batch|)) == batch;
        var more, dispatched := RunBatch(Some(|batch|), ok);
        Extend(g, st0, ok, st, log, scheduler.Statuses(), dispatched);
        results, log := results + more, log + dispatched;
      }
      CompletedIsLeastFixpoint(g, st0, ok, scheduler.Statuses(), log);
    }
  }

  // A run followed by another from where it stopped is a run.
  lemma {:induction false} GoingOn(g: Graph, st0: Board, ok: Id -> bool, st: Board, log: seq<Id>, st': Board,
      log': seq<Id>)
    requires Going(g, st0, ok, st, log) && Going(g, st, ok, st', log')
    ensures Going(g, st0, ok, st', log + log')
  {
    var all := log + log';
    forall x | Inductive(g, st0, ok, x)
      ensures CompletedIn(st') <= x
    {
      forall n | n in g
        ensures Forced(g, st, ok, x, n)
      {
        assert Forced(g, st0, ok, x, n) && MovedAt(g, st0, ok, st, Elems(log), n);
      }
      assert Inductive(g, st, ok, x);
    }
    OnceOverall(g, st0, ok, st, log, st', log');
    forall n | n in g
      ensures MovedAt(g, st0, ok, st', Elems(all), n)
    {
      MovedTwice(g, st0, ok, st, log, st', log', n);
    }
    forall i: nat | i < |all|
      ensures InTurn(g, st0, ok, all, i)
    {
      TurnTwice(g, st0, ok, st, log, st', log', i);
    }
  }

  lemma {:induction false} Extend(g: Graph, st0: Board, ok: Id -> bool, st: Board, log: seq<Id>, st': Board,
      log': seq<Id>)
    requires Going(g, st0, ok, st, log) && Going(g, st, ok, st', log')
    ensures Going(g, st0, ok, st', log + log') && |log| + |log'| <= |g|
    ensures ResultsOf(log + log', ok) == ResultsOf(log, ok) + ResultsOf(log', ok)
  {
    GoingOn(g, st0, ok, st, log, st', log');
    DoneFits(g, log + log');
  }

  lemma {:induction false} OnceOverall(g: Graph, st0: Board, ok: Id -> bool, st: Board, log: seq<Id>, st': Board,
      log': seq<Id>)
    requires Going(g, st0, ok, st, log) && Going(g, st, ok, st', log')
    ensures NoDup(log + log') && Elems(log + log') == Elems(log) + Elems(log')
  {
    forall n | n in log'
      ensures n !in log
    {
      assert n in Elems(log');
      assert MovedAt(g, st, ok, st', Elems(log'), n) && MovedAt(g, st0, ok, st, Elems(log), n);
    }
    NoDupJoin(log, log');
  }

  lemma {:induction false} MovedTwice(g: Graph, st0: Board, ok: Id -> bool, st: Board, log: seq<Id>, st': Board,
      log': seq<Id>, n: Id)
    requires Going(g, st0, ok, st, log) && Going(g, st, ok, st', log') && n in g
    requires Elems(log + log') == Elems(log) + Elems(log')
    ensures MovedAt(g, st0, ok, st', Elems(log + log'), n)
  {
    assert MovedAt(g, st0, ok, st, Elems(log), n) && MovedAt(g, st, ok, st', Elems(log'), n);
    if n in Elems(log) {
      forall d | d in g[n]
        ensures d in st' && st'[d] == Completed
      {
        assert MovedAt(g, st, ok, st', Elems(log'), d);
      }
    }
  }

  lemma {:induction false} TurnTwice(g: Graph, st0: Board, ok: Id -> bool, st: Board, log: seq<Id>, st': Board,
      log': seq<Id>, i: nat)
    requires Going(g, st0, ok, st, log) && Going(g, st, ok, st', log') && i < |log| + |log'|
    ensures InTurn(g, st0, ok, log + log', i)
  {
    var all := log + log';
    if i < |log| {
      assert InTurn(g, st0, ok, log, i);
      assert all[..i] == log[..i];
    } else {
      assert InTurn(g, st, ok, log', i - |log|);
      assert all[..i] == log + log'[..i - |log|];
      forall d | d in g[all[i]]
        ensures d in g && (st0[d] == Completed || (d in all[..i] && ok(d)))
      {
        assert MovedAt(g, st0, ok, st, Elems(log), d);
      }
    }
  }

  // A batch after its first i tasks: those have been dispatched, the others can
  // still be.
  ghost predicate InBatch(g: Graph, st0: Board, ok: Id -> bool, st: Board, tasks: seq<Id>, i: nat)
    requires i <= |tasks|
  {
    NoDup(tasks) && Going(g, st0, ok, st, tasks[..i]) && StillRunnable(g, st, tasks, i)
  }

  lemma {:induction false} BatchStarts(ids: seq<Id>, g: Graph, st: Board, priority: map<Id, int>, ok: Id -> bool,
      max: Option<int>)
    requires NoDup(ids) && Elems(ids) == g.Keys == st.Keys
    ensures InBatch(g, st, ok, st, NextTasks(ids, g, st, priority, max), 0)
  {
    BatchRunnable(ids, g, st, priority, max);
    GoingStarts(g, st, ok);
    assert NextTasks(ids, g, st, priority, max)[..0] == [];
  }

  // The tasks of a batch not yet dispatched can still be dispatched.
  ghost predicate StillRunnable(g: Graph, st: Board, tasks: seq<Id>, i: nat) {
    forall j {:trigger Runnable(g, st, tasks[j])} :: i <= j < |tasks| ==> Runnable(g, st, tasks[j])
  }

  lemma {:induction false} BatchStep(g: Graph, st0: Board, ok: Id -> bool, st: Board, tasks: seq<Id>, i: nat)
    requires i < |tasks| && InBatch(g, st0, ok, st, tasks, i)
    ensures tasks[i] in st && InBatch(g, st0, ok, st[tasks[i] := Outcome(ok, tasks[i])], tasks, i + 1)
    ensures ResultsOf(tasks[..i + 1], ok) == ResultsOf(tasks[..i], ok) + [AgentResult(tasks[i], ok(tasks[i]))]
  {
    var n := tasks[i];
    var st' := st[n := Outcome(ok, n)];
    assert Runnable(g, st, n);
    GoingStep(g, st0, ok, st, tasks[..i], n);
    assert tasks[..i] + [n] == tasks[..i + 1];
    forall j | i + 1 <= j < |tasks|
      ensures Runnable(g, st', tasks[j])
    {
      assert Runnable(g, st, tasks[j]);
      NoDupAt(tasks, i, j);
    }
  }
}
