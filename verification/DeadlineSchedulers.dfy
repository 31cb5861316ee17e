// DeadlineScheduler (src/cadgenesis/agents/scheduling.py): a heap of tasks by deadline
// and then by the order of submission.
module DeadlineSchedulers {
  import opened Results
  import opened Seqs
  import opened TaskGraphs
  import opened Heaps

  const EXPIRED := "expired before scheduling"

  type Task = Entry<TaskNode>

  // ------------------------------------------------------------------
  // The ordered queue at a given time

  // How many tasks at the front of the queue have expired.
  function Late(q: seq<Task>, now: real): (n: nat)
    ensures n <= |q|
    ensures forall i {:trigger q[i]} :: 0 <= i < n ==> q[i].rank < now
    ensures n < |q| ==> now <= q[n].rank
  {
    if q == [] || now <= q[0].rank then 0 else 1 + Late(q[1..], now)
  }

  function Items(q: seq<Task>): (r: seq<TaskNode>)
    ensures |r| == |q| && forall i {:trigger r[i]} :: 0 <= i < |r| ==> r[i] == q[i].item
  {
    seq(|q|, i requires 0 <= i < |q| => q[i].item)
  }

  function Unexpired(q: seq<Task>, now: real): seq<Task> {
    if q == [] then []
    else if now <= q[0].rank then [q[0]] + Unexpired(q[1..], now)
    else Unexpired(q[1..], now)
  }

  // The tasks that have expired.
  ghost function Expired(q: seq<Task>, now: real): set<TaskNode> {
    set i | 0 <= i < |q| && q[i].rank < now :: q[i].item
  }

  // Everything behind an unexpired task has not expired.
  lemma {:induction false} LateFirst(q: seq<Task>, now: real)
    requires Ranked(q)
    ensures Unexpired(q, now) == q[Late(q, now)..]
  {
    if q != [] {
      RankedTail(q);
      LateFirst(q[1..], now);
      if now <= q[0].rank && |q| > 1 {
        assert q[1] in q[1..];
        assert Late(q[1..], now) == 0;
      }
    }
  }

  // Submitting tasks, oldest first, and draining at one time gives the unexpired ones
  // by deadline, ties in the order of submission.
  lemma {:induction false} DrainIsStableSort(submitted: seq<Task>, now: real)
    requires TurnsRise(submitted)
    ensures Unexpired(Queued(submitted), now) == Sort(RankLeq, Unexpired(submitted, now))
  {
    QueuedIsStableSort(submitted);
    UnexpiredSorted(submitted, now);
  }

  lemma {:induction false} UnexpiredSorted(s: seq<Task>, now: real)
    ensures Unexpired(Sort(RankLeq, s), now) == Sort(RankLeq, Unexpired(s, now))
  {
    if s != [] {
      var t, live := Sort(RankLeq, s[1..]), Unexpired(s[1..], now);
      UnexpiredSorted(s[1..], now);
      SortIsAscending(s[1..]);
      UnexpiredInsert(s[0], t, now);
      if now <= s[0].rank {
        assert Unexpired(s, now) == [s[0]] + live && ([s[0]] + live)[1..] == live;
      }
    }
  }

  // Ranks do not fall along the sequence.
  ghost predicate Ascending(s: seq<Task>) {
    SortedBy(RankLeq, s)
  }

  lemma {:induction false} SortIsAscending(s: seq<Task>)
    ensures Ascending(Sort(RankLeq, s))
  {
    SortSorts(RankLeq, s);
  }

  lemma {:induction false} UnexpiredInsert(e: Task, s: seq<Task>, now: real)
    requires Ascending(s)
    ensures Unexpired(Insert(RankLeq, e, s), now) ==
      if now <= e.rank then Insert(RankLeq, e, Unexpired(s, now)) else Unexpired(s, now)
  {
    var r := Insert(RankLeq, e, s);
    if s == [] || RankLeq(e, s[0]) {
      assert r[1..] == s;
      assert s != [] && now <= e.rank ==> Unexpired(s, now) == [s[0]] + Unexpired(s[1..], now);
    } else {
      UnexpiredInsert(e, s[1..], now);
      assert r[1..] == Insert(RankLeq, e, s[1..]);
      if now <= s[0].rank {
        assert ([s[0]] + Unexpired(s[1..], now))[1..] == Unexpired(s[1..], now);
      }
    }
  }

  // The loop of next_task stops at the first unexpired task.
  lemma {:induction false} LateIs(q: seq<Task>, n: nat, now: real)
    requires Ranked(q) && n <= |q|
    requires forall i {:trigger q[i]} :: 0 <= i < n ==> q[i].rank < now
    requires n < |q| ==> now <= q[n].rank
    ensures Unexpired(q, now) == q[n..]
    ensures forall i {:trigger q[i]} :: n <= i < |q| ==> now <= q[i].rank
  {
    LateFirst(q, now);
    forall i: nat | n < i < |q|
      ensures now <= q[i].rank
    {
      assert InTurn(q, n, i);
    }
  }

  lemma {:induction false} QueueStep(q: seq<Task>, n: nat)
    requires n < |q|
    ensures q[n..][0] == q[n] && q[n..][1..] == q[n + 1..]
  {
  }

  lemma {:induction false} UnexpiredFrom(q: seq<Task>, now: real)
    requires Ranked(q)
    ensures forall i {:trigger Unexpired(q, now)[i]} :: 0 <= i < |Unexpired(q, now)| ==>
      now <= Unexpired(q, now)[i].rank && Unexpired(q, now)[i] in q
  {
    LateIs(q, Late(q, now), now);
  }

  // The outcome of asking for a task of a queue with no expired ones.
  ghost predicate Outcome(q: seq<Task>, next: Option<TaskNode>, rest: seq<Task>) {
    if q == [] then next == None && rest == [] else next == Some(q[0].item) && rest == q[1..]
  }

  // The given tasks were handed out and one more was taken, or there are no more.
  ghost predicate Handed(live: seq<Task>, tasks: seq<TaskNode>, next: Option<TaskNode>, q: seq<Task>) {
    |tasks| <= |live| && tasks == Items(live[..|tasks|]) && Outcome(live[|tasks|..], next, q)
  }

  lemma {:induction false} NoneLate(live: seq<Task>, tasks: seq<TaskNode>, next: Option<TaskNode>, q: seq<Task>,
      now: real)
    requires Handed(live, tasks, next, q) && next.Some?
    requires forall i {:trigger live[i]} :: 0 <= i < |live| ==> now <= live[i].rank
    ensures Unexpired(q, now) == q && Expired(q, now) == {} && |tasks| < |live|
  {
    UnexpiredAgain(live, |tasks| + 1, now);
    QueueStep(live, |tasks|);
  }

  lemma {:induction false} HandNext(live: seq<Task>, tasks: seq<TaskNode>, next: Option<TaskNode>, q: seq<Task>,
      following: Option<TaskNode>, rest: seq<Task>)
    requires Handed(live, tasks, next, q) && next.Some? && Outcome(q, following, rest)
    ensures Handed(live, tasks + [next.value], following, rest)
  {
    var k := |tasks|;
    QueueStep(live, k);
    assert live[..k + 1] == live[..k] + [live[k]];
  }

  lemma {:induction false} UnexpiredAgain(live: seq<Task>, k: nat, now: real)
    requires k <= |live| && forall i {:trigger live[i]} :: 0 <= i < |live| ==> now <= live[i].rank
    ensures Unexpired(live[k..], now) == live[k..]
    decreases |live| - k
  {
    if k < |live| {
      UnexpiredAgain(live, k + 1, now);
      assert live[k..][1..] == live[k + 1..] && live[k..][0] == live[k];
    }
  }

  // Turns are at most the given one, and ranks are deadlines.
  ghost predicate Entered(q: seq<Task>, turn: nat) {
    forall i {:trigger q[i]} :: 0 <= i < |q| ==> q[i].turn <= turn && q[i].item.deadline == Some(q[i].rank)
  }

  lemma {:induction false} EnterOne(q: seq<Task>, turn: nat, e: Task)
    requires Entered(q, turn) && e.turn == turn + 1 && e.item.deadline == Some(e.rank)
    ensures NewKey(e, q) && Entered(Insert(Before, e, q), turn + 1)
  {
    if q != [] && !Before(e, q[0]) {
      EnterOne(q[1..], turn, e);
    }
  }

  lemma {:induction false} EnteredTail(q: seq<Task>, turn: nat)
    requires Entered(q, turn) && q != []
    ensures Entered(q[1..], turn)
  {
  }

  // ------------------------------------------------------------------

  class DeadlineScheduler {
    var heap: seq<Task>
    var turn: nat
    // The queue the heap stands for.
    ghost var queue: seq<Task>

    ghost predicate Valid()
      reads this
    {
      Represents(heap, queue) && Entered(queue, turn)
    }

    constructor ()
      ensures Valid() && queue == [] && turn == 0
    {
      heap, turn, queue := [], 0, [];
    }

    method Submit(task: TaskNode) returns (r: Result<(), string>)
      requires Valid()
      modifies this
      ensures Valid()
      ensures r.Err? <==> task.deadline == None
      ensures r.Err? ==> queue == old(queue) && turn == old(turn)
      ensures r.Err? ==> r.error == "DeadlineScheduler requires task.deadline"
      ensures r.Ok? ==>
        turn == old(turn) + 1 && queue == Insert(Before, Entry(task.deadline.value, turn, task), old(queue))
    {
      if task.deadline == None {
        return Err("DeadlineScheduler requires task.deadline");
      }
      turn := turn + 1;
      var e := Entry(task.deadline.value, turn, task);
      EnterOne(queue, turn - 1, e);
      heap := Push(heap, e, queue);
      queue := Insert(Before, e, queue);
      return Ok(());
    }

    // The next task that has not expired; the expired ones before it, which are all
    // expired ones, are skipped; only expired tasks are touched.
    method NextTask(now: real) returns (r: Option<TaskNode>)
      requires Valid()
      modifies this, Expired(queue, now)
      ensures Valid() && turn == old(turn)
      ensures Outcome(Unexpired(old(queue), now), r, queue)
      ensures AllSkipped(Expired(old(queue), now))
    {
      ghost var was, n := queue, 0;
      EmptyTogether(heap, queue);
      while heap != []
        invariant Valid() && turn == old(turn)
        invariant n <= |was| && queue == was[n..] && |heap| == |queue|
        invariant forall i {:trigger was[i]} :: 0 <= i < n ==> was[i].rank < now && IsSkipped(was[i].item)
        decreases |heap|
      {
        QueueStep(was, n);
        EnteredTail(queue, turn);
        var e, rest := Pop(heap, queue);
        heap := rest;
        queue := queue[1..];
        EmptyTogether(heap, queue);
        if e.rank < now {
          assert was[n].item in Expired(was, now);
          e.item.status := Status.Skipped;
          e.item.error := EXPIRED;
          n := n + 1;
        } else {
          LateIs(was, n, now);
          return Some(e.item);
        }
      }
      LateIs(was, n, now);
      return None;
    }

    // Asking for tasks at one time until there are none left.
    method Drain(now: real) returns (tasks: seq<TaskNode>)
      requires Valid()
      modifies this, Expired(queue, now)
      ensures Valid() && turn == old(turn) && queue == []
      ensures tasks == Items(Unexpired(old(queue), now))
      ensures AllSkipped(Expired(old(queue), now))
    {
      ghost var was, live := queue, Unexpired(queue, now);
      UnexpiredFrom(was, now);
      tasks := [];
      var next := NextTask(now);
      while next.Some?
        invariant Valid() && turn == old(turn)
        invariant Handed(live, tasks, next, queue)
        invariant AllSkipped(Expired(was, now))
        decreases |live| - |tasks|
      {
        ghost var before := queue;
        NoneLate(live, tasks, next, queue, now);
        var following := NextTask(now);
        HandNext(live, tasks, next, before, following, queue);
        tasks := tasks + [next.value];
        next := following;
      }
      assert live[..|live|] == live;
    }
  }

  ghost predicate IsSkipped(t: TaskNode)
    reads t
  {
    t.status == Skipped && t.error == "expired before scheduling"
  }

  ghost predicate AllSkipped(ts: set<TaskNode>)
    reads ts
  {
    forall t {:trigger t in ts} :: t in ts ==> IsSkipped(t)
  }
}
