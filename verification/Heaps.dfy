// A binary heap of (rank, turn, item) entries as heapq keeps it in a list, and the
// ordered queue it stands for.
module Heaps {
  import opened Seqs

  datatype Entry<T> = Entry(rank: real, turn: int, item: T)

  // The order of the pairs (rank, turn).
  predicate Before<T>(a: Entry<T>, b: Entry<T>) {
    a.rank < b.rank || (a.rank == b.rank && a.turn < b.turn)
  }

  function Parent(i: nat): nat
    requires i > 0
  {
    (i - 1) / 2
  }

  // Entry i does not come before its parent.
  ghost predicate Below<T>(h: seq<Entry<T>>, i: nat)
    requires 0 < i < |h|
  {
    !Before(h[i], h[Parent(i)])
  }

  ghost predicate IsHeap<T>(h: seq<Entry<T>>) {
    forall i: nat {:trigger Below(h, i)} :: 0 < i < |h| ==> Below(h, i)
  }

  // ------------------------------------------------------------------
  // The queue a heap stands for

  ghost predicate InTurn<T>(q: seq<Entry<T>>, i: nat, j: nat)
    requires i < j < |q|
  {
    Before(q[i], q[j])
  }

  // Strictly ordered: no two entries share their rank and turn.
  ghost predicate Ranked<T>(q: seq<Entry<T>>) {
    forall i: nat, j: nat {:trigger InTurn(q, i, j)} :: i < j < |q| ==> InTurn(q, i, j)
  }

  ghost predicate Represents<T>(h: seq<Entry<T>>, q: seq<Entry<T>>) {
    IsHeap(h) && Ranked(q) && multiset(h) == multiset(q)
  }

  lemma {:induction false} RankedTail<T>(q: seq<Entry<T>>)
    requires Ranked(q) && q != []
    ensures Ranked(q[1..])
    ensures forall e :: e in q[1..] ==> Before(q[0], e)
  {
    forall i: nat, j: nat | i < j < |q| - 1
      ensures InTurn(q[1..], i, j)
    {
      assert InTurn(q, i + 1, j + 1);
    }
    forall e | e in q[1..]
      ensures Before(q[0], e)
    {
      var i :| 0 <= i < |q| - 1 && q[1..][i] == e;
      assert InTurn(q, 0, i + 1);
    }
  }

  lemma {:induction false} RankedCons<T>(e: Entry<T>, q: seq<Entry<T>>)
    requires Ranked(q) && forall x :: x in q ==> Before(e, x)
    ensures Ranked([e] + q)
  {
    forall i: nat, j: nat | i < j < |q| + 1
      ensures InTurn([e] + q, i, j)
    {
      assert i > 0 ==> InTurn(q, i - 1, j - 1);
    }
  }

  // A set of entries has only one ordered queue.
  lemma {:induction false} RankedUnique<T>(p: seq<Entry<T>>, q: seq<Entry<T>>)
    requires Ranked(p) && Ranked(q) && multiset(p) == multiset(q)
    ensures p == q
  {
    SameElems(p, q);
    if p != [] {
      RankedTail(p);
      RankedTail(q);
      HeadsAgree(p, q);
      TailOf(p);
      TailOf(q);
      RankedUnique(p[1..], q[1..]);
    }
  }

  lemma {:induction false} TailOf<T>(p: seq<T>)
    requires p != []
    ensures p == [p[0]] + p[1..] && multiset(p[1..]) == multiset(p) - multiset{p[0]}
  {
    assert p == [p[0]] + p[1..];
  }

  lemma {:induction false} HeadsAgree<T>(p: seq<Entry<T>>, q: seq<Entry<T>>)
    requires p != [] && q != []
    requires forall e :: e in p <==> e in q
    requires forall e :: e in p[1..] ==> Before(p[0], e)
    requires forall e :: e in q[1..] ==> Before(q[0], e)
    ensures p[0] == q[0]
  {
    HeadOrTail(p, q[0]);
    HeadOrTail(q, p[0]);
  }

  lemma {:induction false} HeadOrTail<T>(p: seq<T>, x: T)
    requires x in p
    ensures x == p[0] || x in p[1..]
  {
    var i :| 0 <= i < |p| && p[i] == x;
    assert i > 0 ==> p[1..][i - 1] == x;
  }

  lemma {:induction false} TailIn<T>(p: seq<T>, x: T)
    requires p != [] && x in p[1..]
    ensures x in p
  {
    var i :| 0 <= i < |p| - 1 && p[1..][i] == x;
    assert p[i + 1] == x;
  }

  // The key of e is not in use.
  ghost predicate NewKey<T>(e: Entry<T>, q: seq<Entry<T>>) {
    forall x {:trigger x in q} :: x in q ==> x.rank != e.rank || x.turn != e.turn
  }

  // Queueing an entry puts it in its place.
  lemma {:induction false} InsertRanked<T>(e: Entry<T>, q: seq<Entry<T>>)
    requires Ranked(q) && NewKey(e, q)
    ensures Ranked(Insert(Before, e, q))
  {
    if q == [] {
    } else if Before(e, q[0]) {
      RankedTail(q);
      forall x | x in q
        ensures Before(e, x)
      {
        HeadOrTail(q, x);
      }
      RankedCons(e, q);
    } else {
      RankedTail(q);
      forall x | x in q[1..]
        ensures x.rank != e.rank || x.turn != e.turn
      {
        TailIn(q, x);
      }
      InsertRanked(e, q[1..]);
      var r := Insert(Before, e, q[1..]);
      forall x | x in r
        ensures Before(q[0], x)
      {
        assert x in multiset(r);
        assert x == e || x in q[1..];
        assert q[0] in q;
      }
      RankedCons(q[0], r);
    }
  }

  // The root comes first.
  lemma {:induction false} RootFirst<T>(h: seq<Entry<T>>, i: nat)
    requires IsHeap(h) && i < |h|
    ensures !Before(h[i], h[0])
  {
    if i > 0 {
      assert Below(h, i);
      RootFirst(h, Parent(i));
    }
  }

  lemma {:induction false} RootIsHead<T>(h: seq<Entry<T>>, q: seq<Entry<T>>)
    requires Represents(h, q) && q != []
    ensures h != [] && h[0] == q[0]
  {
    SameElems(h, q);
    RankedTail(q);
    assert q[0] in h;
    var i :| 0 <= i < |h| && h[i] == q[0];
    RootFirst(h, i);
    HeadOrTail(q, h[0]);
  }

  // ------------------------------------------------------------------
  // The list operations of heapq

  lemma {:induction false} SwapKeeps<T>(h: seq<Entry<T>>, i: nat, j: nat)
    requires i < |h| && j < |h|
    ensures multiset(h[i := h[j]][j := h[i]]) == multiset(h)
  {
  }

  // A heap but for entry pos, which may come before its parent.
  ghost predicate RisingAt<T>(h: seq<Entry<T>>, pos: nat)
    requires pos < |h|
  {
    && (forall i: nat {:trigger Below(h, i)} :: 0 < i < |h| && i != pos ==> Below(h, i))
    && (pos > 0 ==> forall i: nat {:trigger h[i]} :: 0 < i < |h| && Parent(i) == pos ==> !Before(h[i], h[Parent(pos)]))
  }

  lemma {:induction false} RiseStep<T>(h: seq<Entry<T>>, pos: nat)
    requires 0 < pos < |h| && RisingAt(h, pos) && Before(h[pos], h[Parent(pos)])
    ensures RisingAt(h[pos := h[Parent(pos)]][Parent(pos) := h[pos]], Parent(pos))
  {
    var p := Parent(pos);
    var t := h[pos := h[p]][p := h[pos]];
    forall i: nat | 0 < i < |h| && i != p
      ensures Below(t, i) && (p > 0 && Parent(i) == p ==> !Before(t[i], t[Parent(p)]))
    {
      assert i != pos ==> Below(h, i);
      assert p > 0 ==> Below(h, p);
      if i == pos {
        assert t[i] == h[p] && t[p] == h[pos];
      }
    }
  }

  // _siftdown: an entry moves towards the root while it comes before its parent.
  method SiftTowardsRoot<T>(h: seq<Entry<T>>, start: nat) returns (r: seq<Entry<T>>)
    requires start < |h| && RisingAt(h, start)
    ensures IsHeap(r) && multiset(r) == multiset(h)
  {
    r := h;
    var pos := start;
    while pos > 0
      invariant 0 <= pos < |r| == |h|
      invariant RisingAt(r, pos) && multiset(r) == multiset(h)
    {
      var parent := Parent(pos);
      if !Before(r[pos], r[parent]) {
        break;
      }
      RiseStep(r, pos);
      SwapKeeps(r, pos, parent);
      r := r[pos := r[parent]][parent := r[pos]];
      pos := parent;
    }
    assert pos > 0 ==> Below(r, pos);
  }

  // heappush
  method Push<T>(h: seq<Entry<T>>, e: Entry<T>, ghost q: seq<Entry<T>>) returns (r: seq<Entry<T>>)
    requires Represents(h, q) && NewKey(e, q)
    ensures Represents(r, Insert(Before, e, q))
  {
    var grown := h + [e];
    assert RisingAt(grown, |h|) by {
      forall i: nat | 0 < i < |h|
        ensures Below(grown, i)
      {
        assert Below(h, i);
      }
      NoChildren(grown, |h|);
    }
    r := SiftTowardsRoot(grown, |h|);
    InsertRanked(e, q);
  }

  // A heap but for the entry at pos, which came from elsewhere: it may come after its
  // children, or before its parent.
  ghost predicate LooseAt<T>(h: seq<Entry<T>>, pos: nat)
    requires pos < |h|
  {
    && (forall i: nat {:trigger Below(h, i)} :: 0 < i < |h| && i != pos && Parent(i) != pos ==> Below(h, i))
    && (pos > 0 ==> forall i: nat {:trigger h[i]} :: 0 < i < |h| && Parent(i) == pos ==> !Before(h[i], h[Parent(pos)]))
  }

  // The child of pos that no other child comes before.
  ghost predicate FirstChild<T>(h: seq<Entry<T>>, pos: nat, child: nat)
    requires pos < |h|
  {
    0 < child < |h| && Parent(child) == pos &&
    forall i: nat {:trigger h[i]} :: 0 < i < |h| && Parent(i) == pos ==> !Before(h[i], h[child])
  }

  lemma {:induction false} SinkStep<T>(h: seq<Entry<T>>, pos: nat, child: nat)
    requires pos < |h| && LooseAt(h, pos) && FirstChild(h, pos, child)
    ensures LooseAt(h[pos := h[child]][child := h[pos]], child)
  {
    var t := h[pos := h[child]][child := h[pos]];
    forall i: nat | 0 < i < |h| && i != child
      ensures Parent(i) != child ==> Below(t, i)
      ensures Parent(i) == child ==> !Before(t[i], t[pos])
    {
      if Parent(i) == child {
        assert Below(h, i);
      } else if Parent(i) == pos {
        assert Below(h, i) || !Below(h, i);
      } else if i == pos {
        assert Below(h, child) || !Below(h, child);
      } else {
        assert Below(h, i);
      }
    }
  }

  // _siftup: the entry at the root moves down to a leaf past the smaller children,
  // and then up to its place.
  method SiftFromRoot<T>(h: seq<Entry<T>>) returns (r: seq<Entry<T>>)
    requires h != [] && LooseAt(h, 0)
    ensures IsHeap(r) && multiset(r) == multiset(h)
  {
    r := h;
    var pos := 0;
    var child := 1;
    while child < |r|
      invariant pos < |r| == |h| && child == 2 * pos + 1
      invariant LooseAt(r, pos) && multiset(r) == multiset(h)
      decreases |h| - pos
    {
      var right := child + 1;
      if right < |r| && !Before(r[child], r[right]) {
        child := right;
      }
      ChildrenAre(r, pos, child);
      SinkStep(r, pos, child);
      SwapKeeps(r, pos, child);
      r := r[pos := r[child]][child := r[pos]];
      pos := child;
      child := 2 * pos + 1;
    }
    NoChildren(r, pos);
    r := SiftTowardsRoot(r, pos);
  }

  lemma {:induction false} ChildrenAre<T>(h: seq<Entry<T>>, pos: nat, child: nat)
    requires pos < |h| && 2 * pos + 1 <= child <= 2 * pos + 2 && child < |h|
    requires if child == 2 * pos + 2 then !Before(h[child - 1], h[child])
             else child + 1 < |h| ==> Before(h[child], h[child + 1])
    ensures FirstChild(h, pos, child)
  {
    forall i: nat | 0 < i < |h| && Parent(i) == pos
      ensures !Before(h[i], h[child])
    {
      assert i == 2 * pos + 1 || i == 2 * pos + 2;
    }
  }

  lemma {:induction false} NoChildren<T>(h: seq<Entry<T>>, pos: nat)
    requires pos < |h| <= 2 * pos + 1
    ensures forall i: nat {:trigger h[i]} :: 0 < i < |h| ==> Parent(i) != pos
  {
    forall i: nat | 0 < i < |h|
      ensures Parent(i) != pos
    {
      assert i < 2 * pos + 1;
    }
  }

  // The last entry takes the place of the root.
  lemma {:induction false} RootReplaced<T>(h: seq<Entry<T>>, moved: seq<Entry<T>>)
    requires IsHeap(h) && |h| > 1 && moved == h[..|h| - 1][0 := h[|h| - 1]]
    ensures LooseAt(moved, 0) && multiset(moved) == multiset(h) - multiset{h[0]}
  {
    forall i: nat | 0 < i < |moved| && Parent(i) != 0
      ensures Below(moved, i)
    {
      assert Below(h, i);
    }
    RootDropped(h, moved);
  }

  lemma {:induction false} RootDropped<T>(h: seq<T>, moved: seq<T>)
    requires |h| > 1 && moved == h[..|h| - 1][0 := h[|h| - 1]]
    ensures multiset(moved) == multiset(h) - multiset{h[0]}
  {
    var middle := h[1..|h| - 1];
    assert h == [h[0]] + middle + [h[|h| - 1]];
    assert moved == [h[|h| - 1]] + middle;
  }

  // heappop
  method Pop<T>(h: seq<Entry<T>>, ghost q: seq<Entry<T>>) returns (e: Entry<T>, r: seq<Entry<T>>)
    requires Represents(h, q) && h != []
    ensures q != [] && e == q[0] && Represents(r, q[1..])
  {
    SameElems(h, q);
    RootIsHead(h, q);
    RankedTail(q);
    TailOf(q);
    var n := |h| - 1;
    var last := h[n];
    r := h[..n];
    if r == [] {
      e := last;
      assert h == [last];
    } else {
      e := r[0];
      RootReplaced(h, r[0 := last]);
      r := SiftFromRoot(r[0 := last]);
    }
  }

  // An empty heap stands for an empty queue.
  lemma {:induction false} EmptyTogether<T>(h: seq<Entry<T>>, q: seq<Entry<T>>)
    requires Represents(h, q)
    ensures |h| == |q|
  {
    SameElems(h, q);
  }

  // ------------------------------------------------------------------
  // Queueing in turn is a stable sort by rank

  predicate RankLeq<T>(a: Entry<T>, b: Entry<T>) {
    a.rank <= b.rank
  }

  // The entries in the order of their turns.
  ghost predicate TurnsRise<T>(es: seq<Entry<T>>) {
    forall i: nat, j: nat {:trigger Earlier(es, i, j)} :: i < j < |es| ==> Earlier(es, i, j)
  }

  ghost predicate Earlier<T>(es: seq<Entry<T>>, i: nat, j: nat)
    requires i < j < |es|
  {
    es[i].turn < es[j].turn
  }

  lemma {:induction false} RisingParts<T>(es: seq<Entry<T>>)
    requires TurnsRise(es) && es != []
    ensures TurnsRise(es[1..]) && TurnsRise(es[..|es| - 1])
    ensures forall x {:trigger x in es[1..]} :: x in es[1..] ==> es[0].turn < x.turn
    ensures forall i {:trigger es[i]} :: 0 <= i < |es| - 1 ==> es[i].turn < es[|es| - 1].turn
  {
    var n := |es| - 1;
    forall i: nat, j: nat | i < j < n
      ensures Earlier(es[1..], i, j) && Earlier(es[..n], i, j)
    {
      assert Earlier(es, i, j) && Earlier(es, i + 1, j + 1);
    }
    forall i: nat | i < n
      ensures es[i].turn < es[n].turn
    {
      assert Earlier(es, i, n);
    }
    forall x | x in es[1..]
      ensures es[0].turn < x.turn
    {
      var i :| 0 <= i < n && es[1..][i] == x;
      assert Earlier(es, 0, i + 1);
    }
  }

  // Queueing the entries one after the other.
  function Queued<T>(es: seq<Entry<T>>): (q: seq<Entry<T>>)
    ensures multiset(q) == multiset(es)
  {
    if es == [] then []
    else
      var n := |es| - 1;
      assert es == es[..n] + [es[n]];
      Insert(Before, es[n], Queued(es[..n]))
  }

  lemma {:induction false} LaterKeyNew<T>(es: seq<Entry<T>>, q: seq<Entry<T>>, e: Entry<T>)
    requires multiset(q) == multiset(es) && forall i :: 0 <= i < |es| ==> es[i].turn < e.turn
    ensures NewKey(e, q)
  {
    SameElems(q, es);
  }

  lemma {:induction false} QueuedRanked<T>(es: seq<Entry<T>>)
    requires TurnsRise(es)
    ensures Ranked(Queued(es))
  {
    if es != [] {
      var n := |es| - 1;
      RisingParts(es);
      QueuedRanked(es[..n]);
      LaterKeyNew(es[..n], Queued(es[..n]), es[n]);
      InsertRanked(es[n], Queued(es[..n]));
    }
  }

  lemma {:induction false} StableInsertRanked<T>(e: Entry<T>, q: seq<Entry<T>>)
    requires Ranked(q) && forall x {:trigger x in q} :: x in q ==> e.turn < x.turn
    ensures Ranked(Insert(RankLeq, e, q))
  {
    if q != [] && RankLeq(e, q[0]) {
      RankedTail(q);
      assert q[0] in q;
      forall x | x in q
        ensures Before(e, x)
      {
        HeadOrTail(q, x);
      }
      RankedCons(e, q);
    } else if q != [] {
      RankedTail(q);
      forall x | x in q[1..]
        ensures e.turn < x.turn
      {
        TailIn(q, x);
      }
      StableInsertRanked(e, q[1..]);
      var r := Insert(RankLeq, e, q[1..]);
      forall x | x in r
        ensures Before(q[0], x)
      {
        assert x in multiset(r);
        assert x == e || x in q[1..];
      }
      RankedCons(q[0], r);
    }
  }

  lemma {:induction false} StableSortRanked<T>(es: seq<Entry<T>>)
    requires TurnsRise(es)
    ensures Ranked(Sort(RankLeq, es))
  {
    if es != [] {
      RisingParts(es);
      StableSortRanked(es[1..]);
      var t := Sort(RankLeq, es[1..]);
      SameElems(t, es[1..]);
      forall x | x in t
        ensures es[0].turn < x.turn
      {
        assert x in Elems(t) && x in Elems(es[1..]);
      }
      StableInsertRanked(es[0], t);
    }
  }

  // The queue is the stable sort by rank of the entries in the order they came.
  lemma {:induction false} QueuedIsStableSort<T>(es: seq<Entry<T>>)
    requires TurnsRise(es)
    ensures Queued(es) == Sort(RankLeq, es)
  {
    QueuedRanked(es);
    StableSortRanked(es);
    RankedUnique(Queued(es), Sort(RankLeq, es));
  }
}
