// How good greedy assignment is (LoadBalancer.assign of
// src/cadgenesis/agents/scheduling.py).  A schedule of the jobs s on m workers is a
// sequence a giving each job its worker; v is the cost of a job.
module LoadBounds {
  import opened Seqs

  // The total value placed on worker w.
  function Load<T>(v: T -> real, s: seq<T>, a: seq<nat>, w: nat): real
    requires |a| == |s|
  {
    if s == [] then 0.0
    else
      var n := |s| - 1;
      Load(v, s[..n], a[..n], w) + if a[n] == w then v(s[n]) else 0.0
  }

  function Total<T>(v: T -> real, s: seq<T>): real {
    if s == [] then 0.0 else Total(v, s[..|s| - 1]) + v(s[|s| - 1])
  }

  function SumLoads<T>(v: T -> real, s: seq<T>, a: seq<nat>, m: nat): real
    requires |a| == |s|
  {
    if m == 0 then 0.0 else SumLoads(v, s, a, m - 1) + Load(v, s, a, m - 1)
  }

  ghost predicate Schedule<T>(s: seq<T>, a: seq<nat>, m: nat) {
    |a| == |s| && forall j :: 0 <= j < |a| ==> a[j] < m
  }

  // No worker of the schedule carries more than b.
  ghost predicate Within<T>(v: T -> real, s: seq<T>, a: seq<nat>, m: nat, b: real) {
    Schedule(s, a, m) && forall w: nat {:trigger Load(v, s, a, w)} :: w < m ==> Load(v, s, a, w) <= b
  }

  lemma {:induction false} SumLoadsStep<T>(v: T -> real, s: seq<T>, a: seq<nat>, m: nat)
    requires |a| == |s| && s != []
    ensures var n := |s| - 1;
      SumLoads(v, s, a, m) == SumLoads(v, s[..n], a[..n], m) + if a[n] < m then v(s[n]) else 0.0
  {
    if m > 0 {
      SumLoadsStep(v, s, a, m - 1);
    }
  }

  // The workers' loads add up to the total value.
  lemma {:induction false} LoadsAddUp<T>(v: T -> real, s: seq<T>, a: seq<nat>, m: nat)
    requires Schedule(s, a, m)
    ensures SumLoads(v, s, a, m) == Total(v, s)
  {
    if s == [] {
      NoLoads(v, a, m);
    } else {
      LoadsAddUp(v, s[..|s| - 1], a[..|s| - 1], m);
      SumLoadsStep(v, s, a, m);
    }
  }

  lemma {:induction false} NoLoads<T>(v: T -> real, a: seq<nat>, m: nat)
    requires a == []
    ensures SumLoads(v, [], a, m) == 0.0
  {
    if m > 0 {
      NoLoads(v, a, m - 1);
    }
  }

  lemma {:induction false} SumBounds<T>(v: T -> real, s: seq<T>, a: seq<nat>, m: nat, lo: real, hi: real)
    requires |a| == |s|
    ensures (forall w: nat {:trigger Load(v, s, a, w)} :: w < m ==> lo <= Load(v, s, a, w)) ==>
      m as real * lo <= SumLoads(v, s, a, m)
    ensures (forall w: nat {:trigger Load(v, s, a, w)} :: w < m ==> Load(v, s, a, w) <= hi) ==>
      SumLoads(v, s, a, m) <= m as real * hi
  {
    SumCopies(v, s, a, m, lo, hi);
    CopiesTimes(m, lo);
    CopiesTimes(m, hi);
  }

  // x added m times.
  function Copies(m: nat, x: real): real {
    if m == 0 then 0.0 else Copies(m - 1, x) + x
  }

  lemma {:induction false} CopiesTimes(m: nat, x: real)
    ensures Copies(m, x) == m as real * x
  {
    if m > 0 {
      CopiesTimes(m - 1, x);
      var r := (m - 1) as real;
      assert m as real == r + 1.0;
      assert (r + 1.0) * x == r * x + x;
    }
  }

  lemma {:induction false} SumCopies<T>(v: T -> real, s: seq<T>, a: seq<nat>, m: nat, lo: real, hi: real)
    requires |a| == |s|
    ensures (forall w: nat {:trigger Load(v, s, a, w)} :: w < m ==> lo <= Load(v, s, a, w)) ==>
      Copies(m, lo) <= SumLoads(v, s, a, m)
    ensures (forall w: nat {:trigger Load(v, s, a, w)} :: w < m ==> Load(v, s, a, w) <= hi) ==>
      SumLoads(v, s, a, m) <= Copies(m, hi)
  {
    if m > 0 {
      SumCopies(v, s, a, m - 1, lo, hi);
      assert Load(v, s, a, m - 1) == Load(v, s, a, m - 1);
    }
  }

  // ------------------------------------------------------------------
  // The greedy rule

  // The first of the least entries.
  function Least(load: seq<real>): (w: nat)
    requires load != []
    ensures w < |load| && (forall i :: 0 <= i < |load| ==> load[w] <= load[i])
    ensures forall i :: 0 <= i < w ==> load[w] < load[i]
  {
    if |load| == 1 then 0
    else
      var w := Least(load[..|load| - 1]);
      if load[|load| - 1] < load[w] then |load| - 1 else w
  }

  // The loads once the jobs s have been placed by a on top of the loads `start`.
  function After<T>(v: T -> real, start: seq<real>, s: seq<T>, a: seq<nat>): (r: seq<real>)
    requires |a| == |s|
    ensures |r| == |start|
  {
    seq(|start|, w requires 0 <= w < |start| => start[w] + Load(v, s, a, w))
  }

  // Every job went to the worker least loaded at the time.
  ghost predicate Greedy<T>(v: T -> real, start: seq<real>, s: seq<T>, a: seq<nat>)
    requires start != []
  {
    |a| == |s| && (s != [] ==>
      var n := |s| - 1;
      Greedy(v, start, s[..n], a[..n]) && a[n] == Least(After(v, start, s[..n], a[..n])))
  }

  lemma {:induction false} GreedyIsSchedule<T>(v: T -> real, start: seq<real>, s: seq<T>, a: seq<nat>)
    requires start != [] && Greedy(v, start, s, a)
    ensures Schedule(s, a, |start|)
  {
    if s != [] {
      var n := |s| - 1;
      GreedyIsSchedule(v, start, s[..n], a[..n]);
      assert a == a[..n] + [a[n]];
    }
  }

  // ------------------------------------------------------------------
  // When every job costs more than a third of the bound

  // A job too big to share a worker with the smallest job, against the others.
  function Weight<T>(v: T -> real, t: real): T -> real {
    (x: T) => if v(x) > t then 2.0 else 1.0
  }

  // A worker within the bound carries weight at most two: one big job alone, or at
  // most two others.
  lemma {:induction false} WeightWithin<T>(v: T -> real, s: seq<T>, a: seq<nat>, w: nat, p: real, b: real)
    requires |a| == |s| && 0.0 <= p <= b < 3.0 * p
    requires forall i :: 0 <= i < |s| ==> v(s[i]) >= p
    ensures var c, k := Load(v, s, a, w), Load(Weight(v, b - p), s, a, w);
      (k == 0.0 && c == 0.0) || (k == 1.0 && c >= p) || (k == 2.0 && (c >= 2.0 * p || c > b - p)) || (k >= 3.0 && c > b)
  {
    if s != [] {
      var n := |s| - 1;
      WeightWithin(v, s[..n], a[..n], w, p, b);
    }
  }

  // A worker loaded beyond t carries weight at least two.
  lemma {:induction false} WeightBeyond<T>(v: T -> real, s: seq<T>, a: seq<nat>, w: nat, t: real)
    requires |a| == |s| && 0.0 <= t
    ensures var c, k := Load(v, s, a, w), Load(Weight(v, t), s, a, w);
      (k == 0.0 && c == 0.0) || (k == 1.0 && c <= t) || k >= 2.0
  {
    if s != [] {
      var n := |s| - 1;
      WeightBeyond(v, s[..n], a[..n], w, t);
    }
  }

  // Counting weights: if all jobs s fit within b by some schedule, and each costs
  // more than a third of b, then in any schedule of all but the last job some
  // worker still has room for the last.
  lemma {:induction false} RoomForLast<T>(v: T -> real, s: seq<T>, opt: seq<nat>, a: seq<nat>, m: nat, b: real)
      returns (w: nat)
    requires s != [] && Within(v, s, opt, m, b) && Schedule(s[..|s| - 1], a, m)
    requires forall i :: 0 <= i < |s| ==> v(s[i]) >= v(s[|s| - 1]) >= 0.0
    requires b < 3.0 * v(s[|s| - 1])
    ensures w < m && Load(v, s[..|s| - 1], a, w) + v(s[|s| - 1]) <= b
  {
    var n := |s| - 1;
    var p := v(s[n]);
    LastFits(v, s, opt, m, b);
    var k := Weight(v, b - p);
    if forall w: nat {:trigger Load(v, s[..n], a, w)} :: w < m ==> Load(v, s[..n], a, w) > b - p {
      forall w: nat | w < m
        ensures Load(k, s[..n], a, w) >= 2.0
      {
        WeightBeyond(v, s[..n], a, w, b - p);
      }
      forall w: nat | w < m
        ensures Load(k, s, opt, w) <= 2.0
      {
        WeightWithin(v, s, opt, w, p, b);
        assert Load(v, s, opt, w) <= b;
      }
      SumBounds(k, s[..n], a, m, 2.0, 0.0);
      SumBounds(k, s, opt, m, 0.0, 2.0);
      LoadsAddUp(k, s[..n], a, m);
      LoadsAddUp(k, s, opt, m);
      assert false;
    }
    w :| w < m && Load(v, s[..n], a, w) <= b - p;
  }

  lemma {:induction false} LoadNonNegative<T>(v: T -> real, s: seq<T>, a: seq<nat>, w: nat)
    requires |a| == |s| && forall i :: 0 <= i < |s| ==> v(s[i]) >= 0.0
    ensures Load(v, s, a, w) >= 0.0
  {
    if s != [] {
      LoadNonNegative(v, s[..|s| - 1], a[..|s| - 1], w);
    }
  }

  lemma {:induction false} LastFits<T>(v: T -> real, s: seq<T>, opt: seq<nat>, m: nat, b: real)
    requires s != [] && Within(v, s, opt, m, b) && forall i :: 0 <= i < |s| ==> v(s[i]) >= 0.0
    ensures v(s[|s| - 1]) <= b
    ensures Within(v, s[..|s| - 1], opt[..|s| - 1], m, b)
  {
    var n := |s| - 1;
    forall w: nat | w < m
      ensures Load(v, s[..n], opt[..n], w) <= b
    {
      assert Load(v, s, opt, w) <= b;
    }
    LoadNonNegative(v, s[..n], opt[..n], opt[n]);
    assert Load(v, s, opt, opt[n]) <= b;
  }

  // ------------------------------------------------------------------
  // Graham's bound

  ghost predicate Descending<T>(v: T -> real, s: seq<T>) {
    forall i, j {:trigger v(s[i]), v(s[j])} :: 0 <= i < j < |s| ==> v(s[i]) >= v(s[j])
  }

  // Graham's bound for one worker: three m times its load is at most 4m - 1 times
  // whatever bound some schedule achieves.
  ghost predicate Graham(m: nat, load: real, b: real) {
    3.0 * m as real * load <= (4.0 * m as real - 1.0) * b
  }

  lemma {:induction false} SmallJob(m: nat, low: real, p: real, b: real)
    requires m >= 1 && 3.0 * p <= b && m as real * low + p <= m as real * b
    ensures Graham(m, low + p, b)
  {
    var r := m as real;
    assert (r - 1.0) * (b - 3.0 * p) >= 0.0;
    assert 3.0 * r * (low + p) == 3.0 * (r * low + p) + (r - 1.0) * (3.0 * p);
    assert (r - 1.0) * (3.0 * p) == (r - 1.0) * b - (r - 1.0) * (b - 3.0 * p);
    assert (4.0 * r - 1.0) * b == 3.0 * (r * b) + (r - 1.0) * b;
  }

  lemma {:induction false} LargeJob(m: nat, load: real, b: real)
    requires m >= 1 && load <= b && 0.0 <= b
    ensures Graham(m, load, b)
  {
    var r := m as real;
    assert r * (b - load) >= 0.0;
    assert (r - 1.0) * b >= 0.0;
    assert 3.0 * r * load == 3.0 * (r * b) - 3.0 * (r * (b - load));
    assert (4.0 * r - 1.0) * b == 3.0 * (r * b) + (r - 1.0) * b;
  }

  // Longest-processing-time-first: jobs by descending non-negative cost, placed
  // greedily on idle workers, stay within 4/3 - 1/(3m) of every other schedule.
  lemma {:induction false} LptBound<T>(v: T -> real, start: seq<real>, s: seq<T>, a: seq<nat>, opt: seq<nat>, b: real,
      w: nat)
    requires start != [] && (forall i :: 0 <= i < |start| ==> start[i] == 0.0) && w < |start|
    requires Descending(v, s) && (forall i :: 0 <= i < |s| ==> v(s[i]) >= 0.0)
    requires Greedy(v, start, s, a) && Within(v, s, opt, |start|, b)
    ensures Graham(|start|, Load(v, s, a, w), b)
  {
    var m := |start|;
    LoadNonNegative(v, s, opt, 0);
    assert Load(v, s, opt, 0) <= b;
    if s == [] {
      LargeJob(m, 0.0, b);
    } else {
      var n := |s| - 1;
      var p, low := v(s[n]), Load(v, s[..n], a[..n], a[n]);
      LastFits(v, s, opt, m, b);
      LptBound(v, start, s[..n], a[..n], opt[..n], b, w);
      if a[n] == w {
        GreedyIsSchedule(v, start, s[..n], a[..n]);
        LowestLoad(v, start, s[..n], a[..n]);
        if 3.0 * p <= b {
          SumBounds(v, s[..n], a[..n], m, low, 0.0);
          SumBounds(v, s, opt, m, 0.0, b);
          LoadsAddUp(v, s[..n], a[..n], m);
          LoadsAddUp(v, s, opt, m);
          SmallJob(m, low, p, b);
        } else {
          var u := RoomForLast(v, s, opt, a[..n], m, b);
          LargeJob(m, low + p, b);
        }
      }
    }
  }

  lemma {:induction false} LowestLoad<T>(v: T -> real, start: seq<real>, s: seq<T>, a: seq<nat>)
    requires start != [] && (forall i :: 0 <= i < |start| ==> start[i] == 0.0) && |a| == |s|
    ensures forall u: nat {:trigger Load(v, s, a, u)} :: u < |start| ==>
      Load(v, s, a, Least(After(v, start, s, a))) <= Load(v, s, a, u)
  {
    var r := After(v, start, s, a);
    var w := Least(r);
    forall u: nat | u < |start|
      ensures Load(v, s, a, w) <= Load(v, s, a, u)
    {
      assert r[w] <= r[u];
    }
  }

  // ------------------------------------------------------------------
  // Schedules do not depend on the order in which the jobs are listed

  lemma {:induction false} LoadAppend<T>(v: T -> real, s: seq<T>, t: seq<T>, a: seq<nat>, b: seq<nat>, w: nat)
    requires |a| == |s| && |b| == |t|
    ensures Load(v, s + t, a + b, w) == Load(v, s, a, w) + Load(v, t, b, w)
  {
    if t == [] {
      assert s + t == s && a + b == a;
    } else {
      var n := |t| - 1;
      assert (s + t)[..|s| + n] == s + t[..n] && (a + b)[..|s| + n] == a + b[..n];
      LoadAppend(v, s, t[..n], a, b[..n], w);
    }
  }

  // Giving one more job, listed between front and back, to worker x.
  lemma {:induction false} LoadInsert<T>(v: T -> real, front: seq<T>, e: T, back: seq<T>, c: seq<nat>, x: nat, w: nat)
    requires |c| == |front| + |back|
    ensures Load(v, front + [e] + back, c[..|front|] + [x] + c[|front|..], w)
         == Load(v, front + back, c, w) + if x == w then v(e) else 0.0
  {
    var a, b := c[..|front|], c[|front|..];
    assert c == a + b;
    LoadAppend(v, front, back, a, b, w);
    LoadAppend(v, front + [e], back, a + [x], b, w);
    assert (front + [e])[..|front|] == front && (a + [x])[..|front|] == a;
  }

  // Every schedule of s gives a schedule of any permutation of s with the same loads.
  lemma {:induction false} Reschedule<T>(v: T -> real, s: seq<T>, a: seq<nat>, t: seq<T>, m: nat) returns (b: seq<nat>)
    requires Schedule(s, a, m) && multiset(s) == multiset(t)
    ensures Schedule(t, b, m) && forall w: nat {:trigger Load(v, t, b, w)} :: Load(v, t, b, w) == Load(v, s, a, w)
    decreases |s|
  {
    if s == [] {
      assert |multiset(t)| == 0;
      b := [];
    } else {
      var n := |s| - 1;
      var k, front, back := TakeOut(s, t);
      var c := Reschedule(v, s[..n], a[..n], front + back, m);
      b := c[..k] + [a[n]] + c[k..];
      forall w: nat
        ensures Load(v, t, b, w) == Load(v, s, a, w)
      {
        LoadInsert(v, front, s[n], back, c, a[n], w);
        assert Load(v, front + back, c, w) == Load(v, s[..n], a[..n], w);
      }
    }
  }
}
