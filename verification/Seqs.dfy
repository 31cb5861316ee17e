// Facts about sequences that several components share: duplicate-freedom,
// the pigeonhole principle, filtering in order, and Python's stable sort.
module Seqs {

  ghost predicate Differ<T>(s: seq<T>, i: nat, j: nat)
    requires i < |s| && j < |s|
  {
    s[i] != s[j]
  }

  // No entry is repeated.
  ghost predicate NoDup<T>(s: seq<T>) {
    forall i: nat, j: nat {:trigger Differ(s, i, j)} :: i < j < |s| ==> Differ(s, i, j)
  }

  lemma {:induction false} NoDupAt<T>(s: seq<T>, i: nat, j: nat)
    requires NoDup(s) && i < |s| && j < |s|
    ensures s[i] == s[j] <==> i == j
  {
    assert i < j ==> Differ(s, i, j);
    assert j < i ==> Differ(s, j, i);
  }

  // Part of a sequence without repeats has none, and what comes later is new.
  lemma {:induction false} NoDupCut<T>(s: seq<T>, lo: nat, hi: nat)
    requires NoDup(s) && lo <= hi <= |s|
    ensures NoDup(s[lo..hi])
    ensures hi < |s| ==> s[hi] !in s[lo..hi]
    ensures 0 < lo ==> s[lo - 1] !in s[lo..hi]
  {
    forall i: nat, j: nat | i < j < hi - lo
      ensures Differ(s[lo..hi], i, j)
    {
      assert Differ(s, lo + i, lo + j);
    }
    if hi < |s| && s[hi] in s[lo..hi] {
      var i :| 0 <= i < hi - lo && s[lo..hi][i] == s[hi];
      NoDupAt(s, lo + i, hi);
    }
    if 0 < lo && s[lo - 1] in s[lo..hi] {
      var i :| 0 <= i < hi - lo && s[lo..hi][i] == s[lo - 1];
      NoDupAt(s, lo + i, lo - 1);
    }
  }

  lemma {:induction false} NoDupSnoc<T>(s: seq<T>, x: T)
    ensures NoDup(s + [x]) <==> NoDup(s) && x !in s
  {
    var t := s + [x];
    if NoDup(t) {
      NoDupCut(t, 0, |s|);
      assert t[0..|s|] == s;
    }
    if NoDup(s) && x !in s {
      forall i: nat, j: nat | i < j < |t|
        ensures Differ(t, i, j)
      {
        assert j < |s| ==> Differ(s, i, j);
      }
    }
  }

  function Elems<T>(s: seq<T>): set<T> {
    set x | x in s
  }

  lemma {:induction false} ElemsSnoc<T>(s: seq<T>, x: T)
    ensures Elems(s + [x]) == Elems(s) + {x}
  {
    forall y
      ensures y in s + [x] <==> y in s || y == x
    {
      if y in s {
        var i :| 0 <= i < |s| && s[i] == y;
        assert (s + [x])[i] == y;
      } else if y == x {
        assert (s + [x])[|s|] == y;
      }
    }
  }

  // A sequence has at most as many distinct elements as positions, with
  // equality exactly when nothing repeats.
  lemma {:induction false} CardElems<T>(s: seq<T>)
    ensures |Elems(s)| <= |s|
    ensures |Elems(s)| == |s| <==> NoDup(s)
  {
    if s != [] {
      var t, x := s[..|s| - 1], s[|s| - 1];
      assert s == t + [x];
      CardElems(t);
      ElemsSnoc(t, x);
      NoDupSnoc(t, x);
      if x in t {
        assert Elems(s) == Elems(t);
      }
    }
  }

  lemma {:induction false} NoDupCons<T>(x: T, s: seq<T>)
    requires NoDup(s) && x !in s
    ensures NoDup([x] + s)
  {
    var t := [x] + s;
    forall i: nat, j: nat | i < j < |t|
      ensures Differ(t, i, j)
    {
      assert i > 0 ==> Differ(s, i - 1, j - 1);
    }
  }

  lemma {:induction false} NoDupJoin<T>(s: seq<T>, t: seq<T>)
    requires NoDup(s) && NoDup(t) && forall x :: x in t ==> x !in s
    ensures NoDup(s + t) && Elems(s + t) == Elems(s) + Elems(t)
  {
    if t == [] {
      assert s + t == s;
    } else {
      var n := |t| - 1;
      NoDupCut(t, 0, n);
      assert t[0..n] == t[..n] && t == t[..n] + [t[n]];
      NoDupJoin(s, t[..n]);
      assert s + t == s + t[..n] + [t[n]];
      ElemsSnoc(s + t[..n], t[n]);
      ElemsSnoc(t[..n], t[n]);
      NoDupSnoc(s + t[..n], t[n]);
    }
  }

  lemma {:induction false} SameKeysSameSize<K, V, W>(a: map<K, V>, b: map<K, W>)
    requires a.Keys == b.Keys
    ensures |a| == |b|
  {
    assert |a| == |a.Keys| && |b| == |b.Keys|;
  }

  lemma {:induction false} PopElems<T>(s: seq<T>)
    requires s != [] && NoDup(s)
    ensures NoDup(s[..|s| - 1]) && Elems(s[..|s| - 1]) == Elems(s) - {s[|s| - 1]}
  {
    var t, x := s[..|s| - 1], s[|s| - 1];
    assert s == t + [x];
    ElemsSnoc(t, x);
    NoDupSnoc(t, x);
  }

  lemma {:induction false} TailElems<T>(s: seq<T>)
    requires s != [] && NoDup(s)
    ensures NoDup(s[1..]) && Elems(s[1..]) == Elems(s) - {s[0]}
  {
    NoDupCut(s, 1, |s|);
    assert s[1..|s|] == s[1..];
    assert s == [s[0]] + s[1..];
    forall x
      ensures x in Elems(s) <==> x == s[0] || x in Elems(s[1..])
    {
    }
  }

  lemma {:induction false} NoDupCount<T>(s: seq<T>, x: T)
    requires NoDup(s)
    ensures multiset(s)[x] == if x in s then 1 else 0
  {
    if s != [] {
      assert s == [s[0]] + s[1..] && s[1..|s|] == s[1..];
      NoDupCut(s, 1, |s|);
      NoDupCount(s[1..], x);
    }
  }

  lemma {:induction false} RemoveOne<T>(t: seq<T>, k: nat)
    requires k < |t|
    ensures t == t[..k] + [t[k]] + t[k + 1..]
    ensures multiset(t[..k] + t[k + 1..]) == multiset(t) - multiset{t[k]}
  {
    assert t == t[..k] + [t[k]] + t[k + 1..];
  }

  // Where the last entry of s stands in a permutation t of it, and what is around it.
  lemma {:induction false} TakeOut<T>(s: seq<T>, t: seq<T>) returns (k: nat, front: seq<T>, back: seq<T>)
    requires s != [] && multiset(s) == multiset(t)
    ensures k == |front| && t == front + [s[|s| - 1]] + back
    ensures multiset(s[..|s| - 1]) == multiset(front + back)
  {
    var n := |s| - 1;
    RemoveOne(s, n);
    assert s[..n] + s[n + 1..] == s[..n];
    assert s[n] in multiset(t);
    k :| 0 <= k < |t| && t[k] == s[n];
    front, back := t[..k], t[k + 1..];
    RemoveOne(t, k);
  }

  lemma {:induction false} SubsetCard<T>(a: set<T>, b: set<T>)
    requires a <= b
    ensures |a| <= |b|
    ensures |a| == |b| ==> a == b
  {
    assert b == a + (b - a);
  }

  // Pigeonhole: a walk longer than the set it stays in visits something twice.
  lemma {:induction false} Pigeonhole<T>(s: seq<T>, room: set<T>)
    requires Elems(s) <= room && |s| > |room|
    ensures exists i, j :: 0 <= i < j < |s| && s[i] == s[j]
  {
    CardElems(s);
    SubsetCard(Elems(s), room);
    var i: nat, j: nat :| i < j < |s| && !Differ(s, i, j);
  }

  // The elements satisfying a test, in their original order.
  function Filter<T(!new)>(s: seq<T>, p: T -> bool): (r: seq<T>)
    ensures forall x :: x in r <==> x in s && p(x)
  {
    if s == [] then []
    else if p(s[0]) then [s[0]] + Filter(s[1..], p)
    else Filter(s[1..], p)
  }

  lemma {:induction false} FilterSnoc<T(!new)>(s: seq<T>, x: T, p: T -> bool)
    ensures Filter(s + [x], p) == Filter(s, p) + (if p(x) then [x] else [])
  {
    if s != [] {
      assert (s + [x])[1..] == s[1..] + [x];
      FilterSnoc(s[1..], x, p);
    }
  }

  lemma {:induction false} FilterNoDup<T(!new)>(s: seq<T>, p: T -> bool)
    requires NoDup(s)
    ensures NoDup(Filter(s, p))
  {
    if s != [] {
      NoDupCut(s, 1, |s|);
      assert s[1..|s|] == s[1..];
      FilterNoDup(s[1..], p);
      NoDupCons(s[0], Filter(s[1..], p));
    }
  }

  // ------------------------------------------------------------------
  // Python's sorted(): stable, by insertion before the first larger element.

  ghost predicate TotalOn<T>(le: (T, T) -> bool, s: seq<T>) {
    && (forall x, y :: x in s && y in s ==> le(x, y) || le(y, x))
    && (forall x, y, z :: x in s && y in s && z in s && le(x, y) && le(y, z) ==> le(x, z))
  }

  ghost predicate SortedBy<T>(le: (T, T) -> bool, s: seq<T>) {
    forall i, j :: 0 <= i < j < |s| ==> le(s[i], s[j])
  }

  function Insert<T>(le: (T, T) -> bool, x: T, s: seq<T>): (r: seq<T>)
    ensures multiset(r) == multiset{x} + multiset(s)
  {
    if s == [] then [x]
    else if le(x, s[0]) then [x] + s
    else
      assert s == [s[0]] + s[1..];
      [s[0]] + Insert(le, x, s[1..])
  }

  function Sort<T>(le: (T, T) -> bool, s: seq<T>): (r: seq<T>)
    ensures multiset(r) == multiset(s)
  {
    if s == [] then []
    else
      assert s == [s[0]] + s[1..];
      Insert(le, s[0], Sort(le, s[1..]))
  }

  lemma {:induction false} SameElems<T>(a: seq<T>, b: seq<T>)
    requires multiset(a) == multiset(b)
    ensures |a| == |b| && Elems(a) == Elems(b)
    ensures NoDup(a) <==> NoDup(b)
    ensures forall x :: x in a <==> x in b
  {
    forall x
      ensures x in a <==> x in b
    {
      assert x in a <==> x in multiset(a);
      assert x in b <==> x in multiset(b);
    }
    assert |multiset(a)| == |multiset(b)|;
    CardElems(a);
    CardElems(b);
  }

  lemma {:induction false} InsertSorted<T>(le: (T, T) -> bool, x: T, s: seq<T>)
    requires TotalOn(le, [x] + s) && SortedBy(le, s)
    ensures SortedBy(le, Insert(le, x, s))
  {
    if s != [] && !le(x, s[0]) {
      assert forall y :: y in [x] + s[1..] ==> y in [x] + s;
      InsertSorted(le, x, s[1..]);
      var r := Insert(le, x, s[1..]);
      forall j | 0 <= j < |r|
        ensures le(s[0], r[j])
      {
        assert r[j] in multiset(r);
        assert r[j] == x || r[j] in s[1..];
        assert x in [x] + s && s[0] in [x] + s;
      }
    } else if s != [] {
      forall j | 0 <= j < |s|
        ensures le(x, s[j])
      {
        assert s[0] in [x] + s && s[j] in [x] + s && x in [x] + s;
      }
    }
  }

  lemma {:induction false} SortSorts<T>(le: (T, T) -> bool, s: seq<T>)
    requires TotalOn(le, s)
    ensures SortedBy(le, Sort(le, s))
  {
    if s != [] {
      assert forall y :: y in s[1..] ==> y in s;
      SortSorts(le, s[1..]);
      var t := Sort(le, s[1..]);
      SameElems(t, s[1..]);
      forall y | y in [s[0]] + t
        ensures y in s
      {
        if y != s[0] {
          assert y in Elems(t);
          assert y in Elems(s[1..]);
        }
      }
      InsertSorted(le, s[0], t);
    }
  }

  // x stands before y.
  ghost predicate Ahead<T>(s: seq<T>, x: T, y: T) {
    exists i: nat, j: nat {:trigger s[i], s[j]} :: i < j < |s| && s[i] == x && s[j] == y
  }

  lemma {:induction false} AheadIn<T>(s: seq<T>, i: nat, j: nat)
    requires i < j < |s|
    ensures Ahead(s, s[i], s[j])
  {
  }

  lemma {:induction false} AheadCons<T>(x: T, s: seq<T>, a: T, b: T)
    ensures Ahead([x] + s, a, b) <==> (a == x && b in s) || Ahead(s, a, b)
  {
    var t := [x] + s;
    if i: nat, j: nat :| i < j < |t| && t[i] == a && t[j] == b {
      assert t[j] == s[j - 1];
      if i > 0 {
        AheadIn(s, i - 1, j - 1);
      }
    }
    if a == x && b in s {
      var j :| 0 <= j < |s| && s[j] == b;
      assert t[0] == a && t[j + 1] == b;
    }
    if i: nat, j: nat :| i < j < |s| && s[i] == a && s[j] == b {
      assert t[i + 1] == a && t[j + 1] == b;
    }
  }

  // A filter keeps the order of what it keeps.
  lemma {:induction false} FilterAhead<T(!new)>(s: seq<T>, p: T -> bool, a: T, b: T)
    requires p(a) && p(b)
    ensures Ahead(Filter(s, p), a, b) <==> Ahead(s, a, b)
  {
    if s != [] {
      var rest := Filter(s[1..], p);
      FilterAhead(s[1..], p, a, b);
      AheadCons(s[0], s[1..], a, b);
      AheadCons(s[0], rest, a, b);
      assert s == [s[0]] + s[1..];
    }
  }

  // An insertion keeps the order of the others.
  lemma {:induction false} InsertAhead<T>(le: (T, T) -> bool, x: T, s: seq<T>, a: T, b: T)
    requires a != x && b != x && Ahead(Insert(le, x, s), a, b)
    ensures Ahead(s, a, b)
  {
    if s == [] || le(x, s[0]) {
      AheadCons(x, s, a, b);
    } else {
      AheadCons(s[0], Insert(le, x, s[1..]), a, b);
      if Ahead(Insert(le, x, s[1..]), a, b) {
        InsertAhead(le, x, s[1..], a, b);
      } else {
        assert b in multiset(Insert(le, x, s[1..]));
      }
      AheadCons(s[0], s[1..], a, b);
      assert s == [s[0]] + s[1..];
    }
  }

  // Whatever it is put behind is not larger.
  lemma {:induction false} InsertBehind<T>(le: (T, T) -> bool, x: T, s: seq<T>, a: T)
    requires a != x && x !in s && Ahead(Insert(le, x, s), a, x)
    ensures a in s && !le(x, a)
  {
    if s == [] || le(x, s[0]) {
      AheadCons(x, s, a, x);
      assert false;
    } else {
      AheadCons(s[0], Insert(le, x, s[1..]), a, x);
      if a != s[0] {
        InsertBehind(le, x, s[1..], a);
      }
    }
  }

  lemma {:induction false} AheadBoth<T>(s: seq<T>, a: T, b: T)
    requires Ahead(s, a, b)
    ensures a in s && b in s
  {
  }

  // Stability: what a sort leaves in a tie stands in the order it came in.
  lemma {:induction false} SortTies<T>(le: (T, T) -> bool, s: seq<T>, a: T, b: T)
    requires NoDup(s) && a != b && Ahead(Sort(le, s), a, b) && le(b, a)
    ensures Ahead(s, a, b)
  {
    if s != [] {
      var x, t := s[0], Sort(le, s[1..]);
      assert s == [x] + s[1..];
      NoDupCut(s, 1, |s|);
      assert s[1..|s|] == s[1..];
      SameElems(t, s[1..]);
      SameElems(Sort(le, s), s);
      AheadBoth(Sort(le, s), a, b);
      AheadCons(x, s[1..], a, b);
      FirstOnce(x, s[1..]);
      if b == x {
        InsertBehind(le, x, t, a);
      } else if a != x {
        InsertAhead(le, x, t, a, b);
        SortTies(le, s[1..], a, b);
      }
    }
  }

  lemma {:induction false} FirstOnce<T>(x: T, s: seq<T>)
    requires NoDup([x] + s)
    ensures x !in s
  {
    if x in s {
      var i :| 0 <= i < |s| && s[i] == x;
      NoDupAt([x] + s, 0, i + 1);
    }
  }
}
