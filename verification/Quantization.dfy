// Row-wise int8 quantization (adapters/qlora.py:23-52).
module Quantization {
  import opened Results
  import opened Matrices
  import opened LowRank

  // torch.round: to the nearest integer, halves to the even one.
  function Round(x: real): (r: int)
    ensures x - 0.5 <= r as real <= x + 0.5
    ensures x == x.Floor as real ==> r == x.Floor
    ensures Abs(r as real - x) == 0.5 ==> r % 2 == 0
  {
    var f := x.Floor;
    var rest := x - f as real;
    if rest < 0.5 then f
    else if rest > 0.5 then f + 1
    else if f % 2 == 0 then f
    else f + 1
  }

  function Max(a: real, b: real): (m: real)
    ensures m >= a && m >= b && (m == a || m == b)
  {
    if a < b then b else a
  }

  // The largest magnitude in one row.
  function AbsMax(row: Vec): (m: real)
    ensures m >= 0.0
    ensures forall j {:trigger row[j]} :: 0 <= j < |row| ==> Abs(row[j]) <= m
    ensures row != [] ==> exists j {:trigger row[j]} :: 0 <= j < |row| && Abs(row[j]) == m
  {
    if row == [] then 0.0
    else
      var n := |row| - 1;
      var m := AbsMax(row[..n]);
      assert forall j {:trigger row[j]} :: 0 <= j < n ==> row[j] == row[..n][j];
      if n == 0 then
        assert Abs(row[0]) == Max(m, Abs(row[n]));
        Max(m, Abs(row[n]))
      else
        assert exists j {:trigger row[j]} :: 0 <= j < n && Abs(row[j]) == m by {
          var j :| 0 <= j < n && Abs(row[..n][j]) == m;
          assert row[j] == row[..n][j];
        }
        assert Abs(row[n]) == Abs(row[n]);
        Max(m, Abs(row[n]))
  }

  const TINY: real := 0.000000000001

  function ScaleOf(row: Vec): (s: real)
    ensures s > 0.0
    ensures Mul(127.0, s) == if AbsMax(row) >= 0.000000000001 then AbsMax(row) else 0.000000000001
  {
    Max(AbsMax(row), TINY) / 127.0
  }

  // Half a step between the 255 values of a row.
  function HalfStep(row: Vec): (e: real)
    ensures e > 0.0
  {
    (if AbsMax(row) >= 0.000000000001 then AbsMax(row) else 0.000000000001) / 254.0
  }

  lemma {:induction false} HalfOfScale(row: Vec)
    ensures ScaleOf(row) / 2.0 == HalfStep(row)
  {
    assert Mul(127.0, ScaleOf(row)) == 127.0 * ScaleOf(row);
  }

  function Clamp(q: int): int {
    if q < -127 then -127 else if q > 127 then 127 else q
  }

  function QuantizeEntry(w: real, scale: real): int
    requires scale > 0.0
  {
    Clamp(Round(Over(w, scale)))
  }

  function DequantizeEntry(q: int, scale: real): real {
    Mul(q as real, scale)
  }

  function QuantizeWith(row: Vec, scale: real): (q: seq<int>)
    requires scale > 0.0
    ensures |q| == |row| && forall j {:trigger q[j]} :: 0 <= j < |q| ==> q[j] == QuantizeEntry(row[j], scale)
  {
    seq(|row|, j requires 0 <= j < |row| => QuantizeEntry(row[j], scale))
  }

  function Dequantized(q: seq<int>, scale: real): (row: Vec)
    ensures |row| == |q| && forall j {:trigger row[j]} :: 0 <= j < |q| ==> row[j] == DequantizeEntry(q[j], scale)
  {
    seq(|q|, j requires 0 <= j < |q| => DequantizeEntry(q[j], scale))
  }

  // ------------------------------------------------------------------
  // Arithmetic

  function Over(a: real, b: real): real
    requires b > 0.0
  {
    a / b
  }

  lemma {:induction false} MulLeq(a: real, b: real, s: real)
    requires s > 0.0
    ensures a <= b <==> Mul(a, s) <= Mul(b, s)
  {
    if a < b {
      assert (b - a) * s > 0.0;
    } else if b < a {
      assert (a - b) * s > 0.0;
    }
  }

  lemma {:induction false} MulNonNegative(a: real, b: real)
    requires a >= 0.0 && b >= 0.0
    ensures Mul(a, b) >= 0.0
  {
  }

  lemma {:induction false} MulNegated(a: real, s: real)
    ensures Mul(-a, s) == -Mul(a, s)
  {
  }

  lemma {:induction false} MulOver(w: real, s: real)
    requires s > 0.0
    ensures Mul(Over(w, s), s) == w
  {
  }

  lemma {:induction false} OverMul(x: real, s: real)
    requires s > 0.0
    ensures Over(Mul(x, s), s) == x
  {
    MulOver(Mul(x, s), s);
    MulLeq(Over(Mul(x, s), s), x, s);
    MulLeq(x, Over(Mul(x, s), s), s);
  }

  lemma {:induction false} Halves(s: real)
    ensures Mul(0.5, s) == s / 2.0 && Mul(-0.5, s) == -(s / 2.0)
  {
  }

  // Moving by at most one half in units of s.
  lemma {:induction false} StepError(x: real, r: real, s: real)
    requires s > 0.0 && x - 0.5 <= r <= x + 0.5
    ensures Abs(Mul(r, s) - Mul(x, s)) <= s / 2.0
  {
    MulLeq(r, x + 0.5, s);
    MulPlus(x, 0.5, s);
    MulLeq(x + -0.5, r, s);
    MulPlus(x, -0.5, s);
    Halves(s);
  }

  lemma {:induction false} RoundWithin(x: real)
    requires -127.0 <= x <= 127.0
    ensures -127 <= Round(x) <= 127
  {
  }

  lemma {:induction false} RoundWhole(q: int)
    ensures Round(q as real) == q
  {
    assert (q as real).Floor == q;
  }

  // One entry: the clamp never changes anything, ...
  lemma {:induction false} EntryInRange(w: real, s: real)
    requires s > 0.0 && Abs(w) <= Mul(127.0, s)
    ensures var q := QuantizeEntry(w, s); -127 <= q <= 127 && q == Round(Over(w, s))
  {
    MulOver(w, s);
    MulNegated(127.0, s);
    MulLeq(Over(w, s), 127.0, s);
    MulLeq(-127.0, Over(w, s), s);
    RoundWithin(Over(w, s));
  }

  // ... the entry moves by at most half a step and stays in the row's range, ...
  lemma {:induction false} EntryMoves(w: real, s: real)
    requires s > 0.0 && Abs(w) <= Mul(127.0, s)
    ensures Abs(DequantizeEntry(QuantizeEntry(w, s), s) - w) <= s / 2.0
    ensures Abs(DequantizeEntry(QuantizeEntry(w, s), s)) <= Mul(127.0, s)
  {
    EntryInRange(w, s);
    MulOver(w, s);
    var q := QuantizeEntry(w, s);
    StepError(Over(w, s), q as real, s);
    MulNegated(127.0, s);
    MulLeq(q as real, 127.0, s);
    MulLeq(-127.0, q as real, s);
  }

  // ... it is mapped to the same integer again, ...
  lemma {:induction false} EntryAgain(q: int, s: real)
    requires s > 0.0 && -127 <= q <= 127
    ensures QuantizeEntry(DequantizeEntry(q, s), s) == q
  {
    OverMul(q as real, s);
    RoundWhole(q);
  }

  // ... and the largest one does not move.
  lemma {:induction false} LargestStays(w: real, s: real)
    requires s > 0.0 && Abs(w) == Mul(127.0, s)
    ensures DequantizeEntry(QuantizeEntry(w, s), s) == w
  {
    MulNegated(127.0, s);
    if w == Mul(127.0, s) {
      OverMul(127.0, s);
      RoundWhole(127);
    } else {
      OverMul(-127.0, s);
      RoundWhole(-127);
    }
  }

  // ------------------------------------------------------------------
  // Rows

  // Of a row with an entry that is not tiny, the largest entries become 127 or -127.
  lemma {:induction false} LargestIsOutermost(row: Vec, j: nat)
    requires j < |row| && Abs(row[j]) == AbsMax(row) >= 0.000000000001
    ensures QuantizeWith(row, ScaleOf(row))[j] == if row[j] > 0.0 then 127 else -127
  {
    var s := ScaleOf(row);
    MulNegated(127.0, s);
    OverMul(127.0, s);
    OverMul(-127.0, s);
    RoundWhole(127);
    RoundWhole(-127);
  }

  // No other integer comes nearer.
  lemma {:induction false} RoundNearest(x: real, k: int)
    ensures Abs(Round(x) as real - x) <= Abs(k as real - x)
  {
    var r := Round(x);
    assert (r - k) as real == r as real - k as real;
    if r > k {
      assert (r - k) as real >= 1.0;
    } else if r < k {
      assert (r - k) as real <= -1.0;
    }
  }

  lemma {:induction false} DistanceScales(a: real, x: real, s: real)
    requires s > 0.0
    ensures Abs(Mul(a, s) - Mul(x, s)) == Mul(Abs(a - x), s)
  {
    MulPlus(a, -x, s);
    MulNegated(x, s);
    MulNegated(a - x, s);
    MulLeq(0.0, a - x, s);
    MulUnits(s);
  }

  lemma {:induction false} NearestEntry(w: real, s: real, k: int)
    requires s > 0.0 && Abs(w) <= Mul(127.0, s)
    ensures Abs(DequantizeEntry(QuantizeEntry(w, s), s) - w) <= Abs(Mul(k as real, s) - w)
    ensures Abs(DequantizeEntry(QuantizeEntry(w, s), s) - w) == s / 2.0 ==> QuantizeEntry(w, s) % 2 == 0
  {
    EntryInRange(w, s);
    MulOver(w, s);
    var x, q := Over(w, s), QuantizeEntry(w, s);
    RoundNearest(x, k);
    DistanceScales(q as real, x, s);
    DistanceScales(k as real, x, s);
    MulLeq(Abs(q as real - x), Abs(k as real - x), s);
    Halves(s);
    MulLeq(Abs(q as real - x), 0.5, s);
    MulLeq(0.5, Abs(q as real - x), s);
  }

  // Every integer fits in a byte without the clamp, and its value is the nearest to the
  // weight, at most half a step away; halfway between two, it is the even one.
  lemma {:induction false} RowError(row: Vec, j: nat)
    requires j < |row|
    ensures var (s, q) := (ScaleOf(row), QuantizeWith(row, ScaleOf(row)));
      var error := Abs(Dequantized(q, s)[j] - row[j]);
      && -127 <= q[j] <= 127 && error <= HalfStep(row)
      && (forall k: int {:trigger Mul(k as real, s)} :: error <= Abs(Mul(k as real, s) - row[j]))
      && (error == HalfStep(row) ==> q[j] % 2 == 0)
  {
    var s := ScaleOf(row);
    assert Abs(row[j]) <= AbsMax(row);
    HalfOfScale(row);
    EntryInRange(row[j], s);
    EntryMoves(row[j], s);
    forall k: int {:trigger Mul(k as real, s)}
      ensures Abs(Dequantized(QuantizeWith(row, s), s)[j] - row[j]) <= Abs(Mul(k as real, s) - row[j])
    {
      NearestEntry(row[j], s, k);
    }
    NearestEntry(row[j], s, 0);
  }

  lemma {:induction false} MaxUnique(row: Vec, m: real)
    requires row != []
    requires forall j {:trigger row[j]} :: 0 <= j < |row| ==> Abs(row[j]) <= m
    requires exists j {:trigger row[j]} :: 0 <= j < |row| && Abs(row[j]) == m
    ensures AbsMax(row) == m
  {
    var i :| 0 <= i < |row| && Abs(row[i]) == AbsMax(row);
    var j :| 0 <= j < |row| && Abs(row[j]) == m;
  }

  lemma {:induction false} MaxWithin(row: Vec, m: real)
    requires row != []
    requires forall j {:trigger row[j]} :: 0 <= j < |row| ==> Abs(row[j]) <= m
    ensures AbsMax(row) <= m
  {
    var i :| 0 <= i < |row| && Abs(row[i]) == AbsMax(row);
  }

  lemma {:induction false} SameMaxSameScale(row: Vec, back: Vec)
    requires Max(AbsMax(row), TINY) == Max(AbsMax(back), TINY)
    ensures ScaleOf(row) == ScaleOf(back)
  {
  }

  // The dequantized row has the same scale, also when every entry is tiny.
  lemma {:induction false} SameScale(row: Vec)
    requires row != []
    ensures ScaleOf(Dequantized(QuantizeWith(row, ScaleOf(row)), ScaleOf(row))) == ScaleOf(row)
  {
    var s := ScaleOf(row);
    var back := Dequantized(QuantizeWith(row, s), s);
    var m := Max(AbsMax(row), TINY);
    forall j | 0 <= j < |back|
      ensures Abs(back[j]) <= m
    {
      EntryMoves(row[j], s);
    }
    MaxWithin(back, m);
    if AbsMax(row) >= TINY {
      var j :| 0 <= j < |row| && Abs(row[j]) == AbsMax(row);
      LargestStays(row[j], s);
      assert Abs(back[j]) == m;
      MaxUnique(back, m);
    }
    SameMaxSameScale(row, back);
  }

  // Quantizing the dequantized row again gives the same integers and the same scale.
  lemma {:induction false} QuantizingIsIdempotent(row: Vec)
    requires row != []
    ensures var (s, q) := (ScaleOf(row), QuantizeWith(row, ScaleOf(row)));
      var back := Dequantized(q, s);
      ScaleOf(back) == s && QuantizeWith(back, ScaleOf(back)) == q
  {
    var s, q := ScaleOf(row), QuantizeWith(row, ScaleOf(row));
    SameScale(row);
    forall j | 0 <= j < |row|
      ensures QuantizeEntry(DequantizeEntry(q[j], s), s) == q[j]
    {
      assert Abs(row[j]) <= AbsMax(row);
      EntryInRange(row[j], s);
      EntryAgain(q[j], s);
    }
  }

  // ------------------------------------------------------------------
  // Matrices

  datatype Quantized = Quantized(ints: seq<seq<int>>, scales: seq<real>, bias: Option<Vec>)

  // QuantizedLinear.__init__
  function Quantize(w: Matrix, bias: Option<Vec>): (q: Quantized)
    ensures |q.ints| == |w| && |q.scales| == |w| && q.bias == bias
    ensures forall i {:trigger w[i]} :: 0 <= i < |w| ==>
      q.scales[i] == ScaleOf(w[i]) && q.ints[i] == QuantizeWith(w[i], ScaleOf(w[i]))
  {
    Quantized(seq(|w|, i requires 0 <= i < |w| => QuantizeWith(w[i], ScaleOf(w[i]))),
      seq(|w|, i requires 0 <= i < |w| => ScaleOf(w[i])), bias)
  }

  // The weight property.
  function Weight(q: Quantized): (w: Matrix)
    ensures |w| == |q.ints|
    ensures forall i {:trigger w[i]} :: 0 <= i < |w| ==> w[i] == Dequantized(q.ints[i], At(q.scales, i))
  {
    seq(|q.ints|, i requires 0 <= i < |q.ints| => Dequantized(q.ints[i], At(q.scales, i)))
  }

  // QuantizedLinear.forward
  function QuantizedOut(q: Quantized, x: Vec): Vec {
    LinearOut(Weight(q), q.bias, x)
  }

  function AbsSum(x: Vec): real {
    Sum(|x|, j => Abs(At(x, j)))
  }

  lemma {:induction false} DotError(x: Vec, u: Vec, v: Vec, e: real)
    requires |u| == |x| && |v| == |x| && e >= 0.0
    requires forall j {:trigger v[j]} :: 0 <= j < |x| ==> Abs(v[j] - u[j]) <= e
    ensures Abs(Dot(x, v) - Dot(x, u)) <= Mul(e, AbsSum(x))
  {
    var du, dv, bound := (j => Mul(At(x, j), At(u, j))), (j => Mul(At(x, j), At(v, j))), (j => Mul(e, Abs(At(x, j))));
    var diff := j => dv(j) - du(j);
    forall j | 0 <= j < |x|
      ensures Abs(diff(j)) <= bound(j)
    {
      TermError(x[j], u[j], v[j], e);
    }
    SumDifference(|x|, du, dv, diff);
    SumBound(|x|, diff, bound);
    SumScaled(|x|, e, j => Abs(At(x, j)), bound);
  }

  lemma {:induction false} SumDifference(n: nat, f: int -> real, g: int -> real, h: int -> real)
    requires forall j {:trigger h(j)} :: 0 <= j < n ==> h(j) == g(j) - f(j)
    ensures Sum(n, h) == Sum(n, g) - Sum(n, f)
  {
    if n > 0 {
      SumDifference(n - 1, f, g, h);
    }
  }

  lemma {:induction false} TermError(a: real, u: real, v: real, e: real)
    requires Abs(v - u) <= e
    ensures Abs(Mul(a, v) - Mul(a, u)) <= Mul(e, Abs(a))
  {
    var d := v - u;
    assert Mul(a, v) - Mul(a, u) == Mul(d, a);
    MulNegated(e, a);
    MulNegated(d, a);
    assert Mul(d, -a) == -Mul(d, a);
    if a > 0.0 {
      MulLeq(d, e, a);
      MulLeq(-e, d, a);
    } else if a < 0.0 {
      MulNegated(e, -a);
      MulLeq(d, e, -a);
      MulLeq(-e, d, -a);
    }
  }

  // Every output of the quantized layer is off by at most half a step of its row for
  // each unit of input.
  lemma {:induction false} ForwardError(w: Matrix, bias: Option<Vec>, x: Vec, i: nat)
    requires Shape(w, |w|, |x|) && i < |w|
    ensures Abs(QuantizedOut(Quantize(w, bias), x)[i] - LinearOut(w, bias, x)[i]) <= Mul(HalfStep(w[i]), AbsSum(x))
  {
    var s, q := ScaleOf(w[i]), QuantizeWith(w[i], ScaleOf(w[i]));
    var row := Dequantized(q, s);
    assert Weight(Quantize(w, bias))[i] == row;
    forall j | 0 <= j < |x|
      ensures Abs(row[j] - w[i][j]) <= HalfStep(w[i])
    {
      RowError(w[i], j);
    }
    DotError(x, w[i], row, HalfStep(w[i]));
  }
}
