// Finite sums, vectors and matrices over the reals: what torch computes, without the
// rounding.
module Matrices {
  type Vec = seq<real>
  type Matrix = seq<Vec>

  function At(v: Vec, i: int): real {
    if 0 <= i < |v| then v[i] else 0.0
  }

  function Entry(m: Matrix, i: int, j: int): real {
    if 0 <= i < |m| then At(m[i], j) else 0.0
  }

  predicate Shape(m: Matrix, rows: nat, cols: nat) {
    |m| == rows && forall i {:trigger m[i]} :: 0 <= i < rows ==> |m[i]| == cols
  }

  // ------------------------------------------------------------------
  // Products of numbers

  function Mul(a: real, b: real): real {
    a * b
  }

  lemma {:induction false} MulPlus(a: real, b: real, s: real)
    ensures Mul(a + b, s) == Mul(a, s) + Mul(b, s)
  {
  }

  lemma {:induction false} MulCommutes(a: real, b: real)
    ensures Mul(a, b) == Mul(b, a)
  {
  }

  lemma {:induction false} MulSwap(a: real, b: real, c: real)
    ensures Mul(a, Mul(b, c)) == Mul(b, Mul(a, c))
  {
  }

  lemma {:induction false} MulUnits(a: real)
    ensures Mul(0.0, a) == 0.0 == Mul(a, 0.0) && Mul(1.0, a) == a == Mul(a, 1.0)
  {
  }

  // ------------------------------------------------------------------
  // Sums

  function Sum(n: nat, f: int -> real): real {
    if n == 0 then 0.0 else Sum(n - 1, f) + f(n - 1)
  }

  lemma {:induction false} SumSame(n: nat, f: int -> real, g: int -> real)
    requires forall i {:trigger f(i)} {:trigger g(i)} :: 0 <= i < n ==> f(i) == g(i)
    ensures Sum(n, f) == Sum(n, g)
  {
    if n > 0 {
      SumSame(n - 1, f, g);
    }
  }

  lemma {:induction false} SumZero(n: nat, f: int -> real)
    requires forall i {:trigger f(i)} :: 0 <= i < n ==> f(i) == 0.0
    ensures Sum(n, f) == 0.0
  {
    if n > 0 {
      SumZero(n - 1, f);
    }
  }

  // h is the combination of c times f, and g.
  lemma {:induction false} SumLinear(n: nat, c: real, f: int -> real, g: int -> real, h: int -> real)
    requires forall i {:trigger h(i)} :: 0 <= i < n ==> h(i) == Mul(c, f(i)) + g(i)
    ensures Sum(n, h) == Mul(c, Sum(n, f)) + Sum(n, g)
  {
    if n == 0 {
      MulUnits(c);
    } else {
      SumLinear(n - 1, c, f, g, h);
      MulCommutes(c, Sum(n, f));
      MulCommutes(c, Sum(n - 1, f));
      MulCommutes(c, f(n - 1));
      MulPlus(Sum(n - 1, f), f(n - 1), c);
    }
  }

  lemma {:induction false} SumPlus(n: nat, f: int -> real, g: int -> real, h: int -> real)
    requires forall i {:trigger h(i)} :: 0 <= i < n ==> h(i) == f(i) + g(i)
    ensures Sum(n, h) == Sum(n, f) + Sum(n, g)
  {
    if n > 0 {
      SumPlus(n - 1, f, g, h);
    }
  }

  // Exchanging two finite sums.
  lemma {:induction false} SumExchange(n: nat, m: nat, f: (int, int) -> real)
    ensures Sum(n, i => Sum(m, j => f(i, j))) == Sum(m, j => Sum(n, i => f(i, j)))
  {
    var rows := i => Sum(m, j => f(i, j));
    var cols := j => Sum(n, i => f(i, j));
    if n == 0 {
      SumZero(m, cols);
    } else {
      SumExchange(n - 1, m, f);
      var shorter, last := (j => Sum(n - 1, i => f(i, j))), (j => f(n - 1, j));
      forall j | 0 <= j < m
        ensures cols(j) == shorter(j) + last(j)
      {
        SumSame(n - 1, i => f(i, j), i => f(i, j));
      }
      SumPlus(m, shorter, last, cols);
    }
  }

  function Abs(r: real): real {
    if r < 0.0 then -r else r
  }

  lemma {:induction false} SumBound(n: nat, f: int -> real, g: int -> real)
    requires forall i {:trigger f(i)} :: 0 <= i < n ==> Abs(f(i)) <= g(i)
    ensures Abs(Sum(n, f)) <= Sum(n, g)
  {
    if n > 0 {
      SumBound(n - 1, f, g);
    }
  }

  // Only one term is not zero.
  lemma {:induction false} SumOne(n: nat, f: int -> real, k: nat)
    requires k < n && forall i {:trigger f(i)} :: 0 <= i < n && i != k ==> f(i) == 0.0
    ensures Sum(n, f) == f(k)
  {
    if k == n - 1 {
      SumZero(n - 1, f);
    } else {
      SumOne(n - 1, f, k);
    }
  }

  // ------------------------------------------------------------------
  // Products

  function Dot(u: Vec, v: Vec): real {
    Sum(|u|, i => Mul(At(u, i), At(v, i)))
  }

  // x @ m.T
  function Times(x: Vec, m: Matrix): (r: Vec)
    ensures |r| == |m|
  {
    seq(|m|, i requires 0 <= i < |m| => Dot(x, m[i]))
  }

  // b @ a, where a has the given number of columns.
  function Product(b: Matrix, a: Matrix, cols: nat): (r: Matrix)
    ensures Shape(r, |b|, cols)
  {
    seq(|b|, i requires 0 <= i < |b| => seq(cols, j => Sum(|a|, k => Mul(At(b[i], k), Entry(a, k, j)))))
  }

  function AddVec(u: Vec, v: Vec): (r: Vec)
    ensures |r| == |u| && forall i {:trigger r[i]} :: 0 <= i < |r| ==> r[i] == u[i] + At(v, i)
  {
    seq(|u|, i requires 0 <= i < |u| => u[i] + At(v, i))
  }

  function ScaleVec(u: Vec, c: real): (r: Vec)
    ensures |r| == |u| && forall i {:trigger r[i]} :: 0 <= i < |r| ==> r[i] == Mul(u[i], c)
  {
    seq(|u|, i requires 0 <= i < |u| => Mul(u[i], c))
  }

  function Plus(m: Matrix, d: Matrix): (r: Matrix)
    ensures |r| == |m|
    ensures forall i {:trigger r[i]} :: 0 <= i < |m| ==> r[i] == AddVec(m[i], if i < |d| then d[i] else [])
  {
    seq(|m|, i requires 0 <= i < |m| => AddVec(m[i], if i < |d| then d[i] else []))
  }

  function Scaled(m: Matrix, c: real): (r: Matrix)
    ensures |r| == |m| && forall i {:trigger r[i]} :: 0 <= i < |m| ==> r[i] == ScaleVec(m[i], c)
  {
    seq(|m|, i requires 0 <= i < |m| => ScaleVec(m[i], c))
  }

  // ------------------------------------------------------------------
  // Laws

  lemma {:induction false} PlusEntry(m: Matrix, d: Matrix, rows: nat, cols: nat, i: nat, j: nat)
    requires Shape(m, rows, cols) && i < rows && j < cols
    ensures Entry(Plus(m, d), i, j) == Entry(m, i, j) + Entry(d, i, j)
    ensures Shape(Plus(m, d), rows, cols)
  {
    assert |m[i]| == cols;
  }

  lemma {:induction false} SameMatrix(m: Matrix, d: Matrix, rows: nat, cols: nat)
    requires Shape(m, rows, cols) && Shape(d, rows, cols)
    requires forall i, j {:trigger Entry(m, i, j)} :: 0 <= i < rows && 0 <= j < cols ==>
      Entry(m, i, j) == Entry(d, i, j)
    ensures m == d
  {
    forall i | 0 <= i < rows
      ensures m[i] == d[i]
    {
      forall j | 0 <= j < cols
        ensures m[i][j] == d[i][j]
      {
        assert Entry(m, i, j) == Entry(d, i, j);
      }
    }
  }

  // A linear map is determined by what it does to every input.
  lemma {:induction false} SameMapSameMatrix(m: Matrix, d: Matrix, rows: nat, cols: nat)
    requires Shape(m, rows, cols) && Shape(d, rows, cols)
    requires forall x: Vec {:trigger Times(x, m)} :: |x| == cols ==> Times(x, m) == Times(x, d)
    ensures m == d
  {
    forall i, j | 0 <= i < rows && 0 <= j < cols
      ensures Entry(m, i, j) == Entry(d, i, j)
    {
      var x := Unit(cols, j);
      DotUnit(cols, j, m[i]);
      DotUnit(cols, j, d[i]);
      assert Times(x, m)[i] == Times(x, d)[i];
    }
    SameMatrix(m, d, rows, cols);
  }

  function Unit(n: nat, k: nat): (r: Vec)
    ensures |r| == n
  {
    seq(n, i => if i == k then 1.0 else 0.0)
  }

  lemma {:induction false} DotUnit(n: nat, k: nat, v: Vec)
    requires k < n
    ensures Dot(Unit(n, k), v) == At(v, k)
  {
    var terms := i => Mul(At(Unit(n, k), i), At(v, i));
    forall i | 0 <= i < n && i != k
      ensures terms(i) == 0.0
    {
      MulUnits(At(v, i));
    }
    MulUnits(At(v, k));
    SumOne(n, terms, k);
  }

  lemma {:induction false} DotPlus(x: Vec, u: Vec, v: Vec, c: real)
    requires |u| == |x| && |v| == |x|
    ensures Dot(x, AddVec(u, ScaleVec(v, c))) == Dot(x, u) + Mul(c, Dot(x, v))
  {
    var w := AddVec(u, ScaleVec(v, c));
    var f, g, h := (i => Mul(At(x, i), At(v, i))), (i => Mul(At(x, i), At(u, i))), (i => Mul(At(x, i), At(w, i)));
    forall i | 0 <= i < |x|
      ensures h(i) == Mul(c, f(i)) + g(i)
    {
      DotTerm(x[i], u[i], v[i], c);
    }
    SumLinear(|x|, c, f, g, h);
  }

  lemma {:induction false} DotTerm(x: real, u: real, v: real, c: real)
    ensures Mul(x, u + Mul(v, c)) == Mul(c, Mul(x, v)) + Mul(x, u)
  {
    MulCommutes(x, u + Mul(v, c));
    MulPlus(u, Mul(v, c), x);
    MulCommutes(Mul(v, c), x);
    MulCommutes(v, c);
    MulSwap(x, c, v);
    MulCommutes(u, x);
  }

  // x (b a)^T = (x a^T) b^T
  lemma {:induction false} ProductTimes(x: Vec, b: Matrix, a: Matrix)
    requires forall i {:trigger b[i]} :: 0 <= i < |b| ==> |b[i]| == |a|
    ensures Times(x, Product(b, a, |x|)) == Times(Times(x, a), b)
  {
    forall i | 0 <= i < |b|
      ensures Dot(x, Product(b, a, |x|)[i]) == Dot(Times(x, a), b[i])
    {
      ProductTimesRow(x, b[i], a, Product(b, a, |x|)[i]);
    }
  }

  lemma {:induction false} SumScaled(n: nat, c: real, f: int -> real, h: int -> real)
    requires forall i {:trigger h(i)} :: 0 <= i < n ==> h(i) == Mul(c, f(i))
    ensures Sum(n, h) == Mul(c, Sum(n, f))
  {
    SumLinear(n, c, f, i => 0.0, h);
    SumZero(n, i => 0.0);
  }

  function Term(x: Vec, c: Vec, a: Matrix, j: int, k: int): real {
    Mul(At(x, j), Mul(At(c, k), Entry(a, k, j)))
  }

  lemma {:induction false} ByInput(x: Vec, c: Vec, a: Matrix, row: Vec)
    requires |row| == |x|
    requires forall j {:trigger row[j]} :: 0 <= j < |x| ==> row[j] == Sum(|a|, k => Mul(At(c, k), Entry(a, k, j)))
    ensures Dot(x, row) == Sum(|x|, j => Sum(|a|, k => Term(x, c, a, j, k)))
  {
    forall j | 0 <= j < |x|
      ensures Mul(At(x, j), At(row, j)) == Sum(|a|, k => Term(x, c, a, j, k))
    {
      SumScaled(|a|, At(x, j), k => Mul(At(c, k), Entry(a, k, j)), k => Term(x, c, a, j, k));
    }
    SumSame(|x|, j => Mul(At(x, j), At(row, j)), j => Sum(|a|, k => Term(x, c, a, j, k)));
  }

  lemma {:induction false} ByRank(x: Vec, c: Vec, a: Matrix)
    ensures Dot(Times(x, a), c) == Sum(|a|, k => Sum(|x|, j => Term(x, c, a, j, k)))
  {
    forall k | 0 <= k < |a|
      ensures Mul(At(Times(x, a), k), At(c, k)) == Sum(|x|, j => Term(x, c, a, j, k))
    {
      SumScaled(|x|, At(c, k), j => Mul(At(x, j), At(a[k], j)), j => Term(x, c, a, j, k));
    }
    SumSame(|a|, k => Mul(At(Times(x, a), k), At(c, k)), k => Sum(|x|, j => Term(x, c, a, j, k)));
  }

  lemma {:induction false} ProductTimesRow(x: Vec, c: Vec, a: Matrix, row: Vec)
    requires |row| == |x|
    requires forall j {:trigger row[j]} :: 0 <= j < |x| ==> row[j] == Sum(|a|, k => Mul(At(c, k), Entry(a, k, j)))
    ensures Dot(x, row) == Dot(Times(x, a), c)
  {
    ByInput(x, c, a, row);
    ByRank(x, c, a);
    var f := (j: int, k: int) => Term(x, c, a, j, k);
    SumExchange(|x|, |a|, f);
    var byInput, byInput' := (j => Sum(|a|, k => Term(x, c, a, j, k))), (j => Sum(|a|, k => f(j, k)));
    forall j | 0 <= j < |x|
      ensures byInput(j) == byInput'(j)
    {
      SumSame(|a|, k => Term(x, c, a, j, k), k => f(j, k));
    }
    SumSame(|x|, byInput, byInput');
    var byRank, byRank' := (k => Sum(|x|, j => Term(x, c, a, j, k))), (k => Sum(|x|, j => f(j, k)));
    forall k | 0 <= k < |a|
      ensures byRank(k) == byRank'(k)
    {
      SumSame(|x|, j => Term(x, c, a, j, k), j => f(j, k));
    }
    SumSame(|a|, byRank, byRank');
  }
}
