// The functions that linear layers and their low-rank wrappers compute, and folding
// updates into weights (adapters/lora.py, adapters/peft.py, adapters/qlora.py).
module LowRank {
  import opened Results
  import opened Seqs
  import opened Matrices

  function WithBias(v: Vec, bias: Option<Vec>): (r: Vec)
    ensures |r| == |v|
  {
    if bias.Some? then AddVec(v, bias.value) else v
  }

  // nn.Linear: x @ w.T + bias
  function LinearOut(w: Matrix, bias: Option<Vec>, x: Vec): (r: Vec)
    ensures |r| == |w|
  {
    WithBias(Times(x, w), bias)
  }

  // Each output is the product of the input with a row, and the bias.
  lemma {:induction false} LinearOutput(w: Matrix, bias: Option<Vec>, x: Vec, i: nat)
    requires i < |w| && (bias.Some? ==> i < |bias.value|)
    ensures bias.None? ==> LinearOut(w, bias, x)[i] == Sum(|x|, k => Mul(At(x, k), At(w[i], k)))
    ensures bias.Some? ==> LinearOut(w, bias, x)[i] == Sum(|x|, k => Mul(At(x, k), At(w[i], k))) + bias.value[i]
  {
    SumSame(|x|, k => Mul(At(x, k), At(w[i], k)), k => Mul(At(x, k), At(w[i], k)));
    assert Times(x, w)[i] == Dot(x, w[i]);
    DotIsSum(x, w[i]);
  }

  lemma {:induction false} DotIsSum(u: Vec, v: Vec)
    ensures Dot(u, v) == Sum(|u|, k => Mul(At(u, k), At(v, k)))
  {
    SumSame(|u|, i => Mul(At(u, i), At(v, i)), k => Mul(At(u, k), At(v, k)));
  }

  // LoRALinear.forward with dropout off, given what the base layer returned.
  function WrappedOut(base: Vec, a: Matrix, b: Matrix, scaling: real, x: Vec): Vec {
    AddVec(base, ScaleVec(Times(Times(x, a), b), scaling))
  }

  // (lora_B @ lora_A) * scaling
  function Delta(a: Matrix, b: Matrix, scaling: real, cols: nat): (d: Matrix)
    ensures Shape(d, |b|, cols)
  {
    Scaled(Product(b, a, cols), scaling)
  }

  ghost predicate Fits(a: Matrix, b: Matrix, rank: nat, rows: nat, cols: nat) {
    Shape(a, rank, cols) && Shape(b, rows, rank)
  }

  // Folding the update into the weights leaves the layer's function as it was.
  lemma {:induction false} FoldKeepsFunction(w: Matrix, bias: Option<Vec>, a: Matrix, b: Matrix, scaling: real,
      rank: nat, x: Vec)
    requires Shape(w, |w|, |x|) && Fits(a, b, rank, |w|, |x|)
    ensures LinearOut(Plus(w, Delta(a, b, scaling, |x|)), bias, x) ==
      WrappedOut(LinearOut(w, bias, x), a, b, scaling, x)
  {
    ProductTimes(x, b, a);
    var p := Product(b, a, |x|);
    forall i | 0 <= i < |w|
      ensures Times(x, Plus(w, Delta(a, b, scaling, |x|)))[i] == Times(x, w)[i] + Mul(Times(Times(x, a), b)[i], scaling)
    {
      DotPlus(x, w[i], p[i], scaling);
      MulCommutes(scaling, Dot(x, p[i]));
    }
  }

  // A wrapper whose B is still zero computes what its base computes.
  lemma {:induction false} ZeroUpdateIsInvisible(base: Vec, a: Matrix, b: Matrix, scaling: real, x: Vec)
    requires forall i {:trigger b[i]} :: 0 <= i < |b| ==> forall k :: 0 <= k < |b[i]| ==> b[i][k] == 0.0
    ensures WrappedOut(base, a, b, scaling, x) == base
  {
    var y := Times(x, a);
    var u := Times(y, b);
    forall i | 0 <= i < |b|
      ensures u[i] == 0.0
    {
      ZeroRow(y, b[i]);
    }
    forall i | 0 <= i < |base|
      ensures At(ScaleVec(u, scaling), i) == 0.0
    {
      MulUnits(scaling);
    }
  }

  lemma {:induction false} ZeroRow(y: Vec, row: Vec)
    requires forall k :: 0 <= k < |row| ==> row[k] == 0.0
    ensures Dot(y, row) == 0.0
  {
    forall k | 0 <= k < |y|
      ensures Mul(At(y, k), At(row, k)) == 0.0
    {
      MulUnits(At(y, k));
    }
    SumZero(|y|, k => Mul(At(y, k), At(row, k)));
  }

  // ------------------------------------------------------------------
  // Folding updates into bases that may be shared: weights, or what stands for them

  datatype Update<L> = Update(base: L, delta: Matrix)

  // The weights of base l once the updates were folded in one after the other.
  function Folded<L(==)>(w: Matrix, us: seq<Update<L>>, l: L): (r: Matrix)
    ensures |r| == |w|
  {
    if us == [] then w
    else
      var u, v := us[|us| - 1], Folded(w, us[..|us| - 1], l);
      if u.base == l then Plus(v, u.delta) else v
  }

  // What one update, and what all of them, add to an entry of l's weights.
  function Adds<L(==)>(u: Update<L>, l: L, i: int, j: int): real {
    if u.base == l then Entry(u.delta, i, j) else 0.0
  }

  function AddsAll<L(==)>(us: seq<Update<L>>, l: L, i: int, j: int): real {
    if us == [] then 0.0 else AddsAll(us[..|us| - 1], l, i, j) + Adds(us[|us| - 1], l, i, j)
  }

  lemma {:induction false} FoldedShape<L>(w: Matrix, us: seq<Update<L>>, l: L, rows: nat, cols: nat)
    requires Shape(w, rows, cols)
    ensures Shape(Folded(w, us, l), rows, cols)
  {
    if us != [] {
      FoldedShape(w, us[..|us| - 1], l, rows, cols);
    }
  }

  lemma {:induction false} FoldedEntry<L>(w: Matrix, us: seq<Update<L>>, l: L, rows: nat, cols: nat, i: nat, j: nat)
    requires Shape(w, rows, cols) && i < rows && j < cols
    ensures Entry(Folded(w, us, l), i, j) == Entry(w, i, j) + AddsAll(us, l, i, j)
  {
    if us != [] {
      var front := us[..|us| - 1];
      FoldedEntry(w, front, l, rows, cols, i, j);
      FoldedShape(w, front, l, rows, cols);
      PlusEntry(Folded(w, front, l), us[|us| - 1].delta, rows, cols, i, j);
    }
  }

  lemma {:induction false} AddsAllJoin<L>(us: seq<Update<L>>, vs: seq<Update<L>>, l: L, i: int, j: int)
    ensures AddsAll(us + vs, l, i, j) == AddsAll(us, l, i, j) + AddsAll(vs, l, i, j)
  {
    if vs == [] {
      assert us + vs == us;
    } else {
      assert (us + vs)[..|us + vs| - 1] == us + vs[..|vs| - 1];
      AddsAllJoin(us, vs[..|vs| - 1], l, i, j);
    }
  }

  lemma {:induction false} AddsAllPermutes<L>(us: seq<Update<L>>, vs: seq<Update<L>>, l: L, i: int, j: int)
    requires multiset(us) == multiset(vs)
    ensures AddsAll(us, l, i, j) == AddsAll(vs, l, i, j)
  {
    if us == [] {
      assert |vs| == |multiset(vs)|;
    } else {
      var u := us[|us| - 1];
      var k, front, back := TakeOut(us, vs);
      AddsAllPermutes(us[..|us| - 1], front + back, l, i, j);
      AddsAllJoin(front, back, l, i, j);
      AddsAllJoin(front + [u], back, l, i, j);
      AddsAllJoin(front, [u], l, i, j);
      assert [u][..0] == [];
    }
  }

  // The weights do not depend on the order in which updates are folded in.
  lemma {:induction false} FoldingOrderIrrelevant<L>(w: Matrix, us: seq<Update<L>>, vs: seq<Update<L>>, l: L, rows: nat,
      cols: nat)
    requires Shape(w, rows, cols) && multiset(us) == multiset(vs)
    ensures Folded(w, us, l) == Folded(w, vs, l)
  {
    FoldedShape(w, us, l, rows, cols);
    FoldedShape(w, vs, l, rows, cols);
    forall i, j | 0 <= i < rows && 0 <= j < cols
      ensures Entry(Folded(w, us, l), i, j) == Entry(Folded(w, vs, l), i, j)
    {
      FoldedEntry(w, us, l, rows, cols, i, j);
      FoldedEntry(w, vs, l, rows, cols, i, j);
      AddsAllPermutes(us, vs, l, i, j);
    }
    SameMatrix(Folded(w, us, l), Folded(w, vs, l), rows, cols);
  }

  lemma {:induction false} FoldedJoin<L>(w: Matrix, us: seq<Update<L>>, vs: seq<Update<L>>, l: L)
    ensures Folded(w, us + vs, l) == Folded(Folded(w, us, l), vs, l)
  {
    if vs == [] {
      assert us + vs == us;
    } else {
      assert (us + vs)[..|us + vs| - 1] == us + vs[..|vs| - 1];
      FoldedJoin(w, us, vs[..|vs| - 1], l);
    }
  }

  // Merging several adapters one after the other.
  function FoldedInTurn<L(==)>(w: Matrix, adapters: seq<seq<Update<L>>>, l: L): (r: Matrix)
    ensures |r| == |w|
  {
    if adapters == [] then w
    else Folded(FoldedInTurn(w, adapters[..|adapters| - 1], l), adapters[|adapters| - 1], l)
  }

  function Concat<T>(ss: seq<seq<T>>): seq<T> {
    if ss == [] then [] else Concat(ss[..|ss| - 1]) + ss[|ss| - 1]
  }

  lemma {:induction false} FoldedInTurnIsFolded<L>(w: Matrix, adapters: seq<seq<Update<L>>>, l: L)
    ensures FoldedInTurn(w, adapters, l) == Folded(w, Concat(adapters), l)
  {
    if adapters != [] {
      var n := |adapters| - 1;
      FoldedInTurnIsFolded(w, adapters[..n], l);
      FoldedJoin(w, Concat(adapters[..n]), adapters[n], l);
    }
  }

  lemma {:induction false} ConcatJoin<T>(ss: seq<seq<T>>, ts: seq<seq<T>>)
    ensures Concat(ss + ts) == Concat(ss) + Concat(ts)
  {
    if ts == [] {
      assert ss + ts == ss;
    } else {
      var all, front := ss + ts, ts[..|ts| - 1];
      assert all[..|all| - 1] == ss + front && all[|all| - 1] == ts[|ts| - 1];
      ConcatJoin(ss, front);
      assert Concat(all) == (Concat(ss) + Concat(front)) + ts[|ts| - 1];
    }
  }

  lemma {:induction false} ConcatPermutes<T>(ss: seq<seq<T>>, ts: seq<seq<T>>)
    requires multiset(ss) == multiset(ts)
    ensures multiset(Concat(ss)) == multiset(Concat(ts))
  {
    if ss == [] {
      assert |ts| == |multiset(ts)|;
    } else {
      var s := ss[|ss| - 1];
      var k, front, back := TakeOut(ss, ts);
      ConcatPermutes(ss[..|ss| - 1], front + back);
      ConcatJoin(front, back);
      ConcatJoin(front + [s], back);
      ConcatJoin(front, [s]);
      assert [s][..0] == [];
    }
  }

  // The same adapters merged in another order leave the same weights.
  lemma {:induction false} MergeOrderIrrelevant<L>(w: Matrix, adapters: seq<seq<Update<L>>>,
      reordered: seq<seq<Update<L>>>, l: L, rows: nat, cols: nat)
    requires Shape(w, rows, cols) && multiset(adapters) == multiset(reordered)
    ensures FoldedInTurn(w, adapters, l) == FoldedInTurn(w, reordered, l)
  {
    FoldedInTurnIsFolded(w, adapters, l);
    FoldedInTurnIsFolded(w, reordered, l);
    ConcatPermutes(adapters, reordered);
    FoldingOrderIrrelevant(w, Concat(adapters), Concat(reordered), l, rows, cols);
  }

  // Nothing is added to an entry by updates of other bases.
  lemma {:induction false} OthersAddNothing<L>(us: seq<Update<L>>, l: L, i: int, j: int)
    requires forall k {:trigger us[k]} :: 0 <= k < |us| ==> us[k].base != l
    ensures AddsAll(us, l, i, j) == 0.0
  {
    if us != [] {
      OthersAddNothing(us[..|us| - 1], l, i, j);
    }
  }

  // What the other updates of the k-th one's base add to an entry.
  function OthersAdd<L(==)>(us: seq<Update<L>>, k: nat, i: int, j: int): real
    requires k < |us|
  {
    AddsAll(us[..k] + us[k + 1..], us[k].base, i, j)
  }

  // The other updates of the same base cancel out.
  ghost predicate OthersCancel<L>(us: seq<Update<L>>, k: nat, rows: nat, cols: nat)
    requires k < |us|
  {
    forall i, j {:trigger OthersAdd(us, k, i, j)} :: 0 <= i < rows && 0 <= j < cols ==> OthersAdd(us, k, i, j) == 0.0
  }

  lemma {:induction false} SoleWrapperCancels<L>(us: seq<Update<L>>, k: nat, rows: nat, cols: nat)
    requires k < |us| && forall m {:trigger us[m]} :: 0 <= m < |us| && m != k ==> us[m].base != us[k].base
    ensures OthersCancel(us, k, rows, cols)
  {
    forall i, j | 0 <= i < rows && 0 <= j < cols
      ensures OthersAdd(us, k, i, j) == 0.0
    {
      OthersAddNothing(us[..k] + us[k + 1..], us[k].base, i, j);
    }
  }

  lemma {:induction false} FoldedAgainstOwn<L>(w: Matrix, us: seq<Update<L>>, k: nat, rows: nat, cols: nat, i: nat,
      j: nat)
    requires Shape(w, rows, cols) && k < |us| && i < rows && j < cols
    ensures Entry(Folded(w, us, us[k].base), i, j) ==
      Entry(Plus(w, us[k].delta), i, j) + OthersAdd(us, k, i, j)
  {
    var l, u := us[k].base, us[k];
    FoldedEntry(w, us, l, rows, cols, i, j);
    PlusEntry(w, us[k].delta, rows, cols, i, j);
    assert us == us[..k] + ([u] + us[k + 1..]);
    AddsAllJoin(us[..k], [u] + us[k + 1..], l, i, j);
    AddsAllJoin([u], us[k + 1..], l, i, j);
    AddsAllJoin(us[..k], us[k + 1..], l, i, j);
    assert [u][..0] == [];
  }

  // Two weights make the same layer: the outputs agree on every input.
  ghost predicate SameLayer(w: Matrix, v: Matrix, bias: Option<Vec>, cols: nat) {
    forall x: Vec {:trigger LinearOut(w, bias, x)} :: |x| == cols ==> LinearOut(w, bias, x) == LinearOut(v, bias, x)
  }

  lemma {:induction false} SameLayerExactly(w: Matrix, v: Matrix, bias: Option<Vec>, rows: nat, cols: nat)
    requires Shape(w, rows, cols) && Shape(v, rows, cols)
    ensures SameLayer(w, v, bias, cols) <==> w == v
  {
    if SameLayer(w, v, bias, cols) {
      forall x: Vec | |x| == cols
        ensures Times(x, w) == Times(x, v)
      {
        assert LinearOut(w, bias, x) == LinearOut(v, bias, x);
        SameBeforeBias(Times(x, w), Times(x, v), bias);
      }
      SameMapSameMatrix(w, v, rows, cols);
    }
  }

  // After folding in all updates, a layer with the k-th one's base computes for every
  // input what its own wrapper computed if and only if the other updates of the same
  // base cancel out.
  lemma {:induction false} FoldKeepsSlotExactly<L>(w: Matrix, bias: Option<Vec>, us: seq<Update<L>>, k: nat, rows: nat,
      cols: nat)
    requires Shape(w, rows, cols) && k < |us|
    ensures SameLayer(Folded(w, us, us[k].base), Plus(w, us[k].delta), bias, cols) <==> OthersCancel(us, k, rows, cols)
  {
    var all, own := Folded(w, us, us[k].base), Plus(w, us[k].delta);
    FoldedShape(w, us, us[k].base, rows, cols);
    SameLayerExactly(all, own, bias, rows, cols);
    forall i: nat, j: nat | i < rows && j < cols
      ensures Entry(all, i, j) == Entry(own, i, j) + OthersAdd(us, k, i, j)
    {
      FoldedAgainstOwn(w, us, k, rows, cols, i, j);
    }
    if OthersCancel(us, k, rows, cols) {
      SameMatrix(all, own, rows, cols);
    }
  }

  // The plain layer with weights v computes what a wrapper around weights w does.
  ghost predicate ActsLike(v: Matrix, w: Matrix, bias: Option<Vec>, a: Matrix, b: Matrix, scaling: real, cols: nat) {
    forall x: Vec {:trigger LinearOut(v, bias, x)} :: |x| == cols ==>
      LinearOut(v, bias, x) == WrappedOut(LinearOut(w, bias, x), a, b, scaling, x)
  }

  lemma {:induction false} ActsLikeExactly<L>(w: Matrix, bias: Option<Vec>, us: seq<Update<L>>, k: nat, a: Matrix,
      b: Matrix, scaling: real, rank: nat, rows: nat, cols: nat)
    requires Shape(w, rows, cols) && Fits(a, b, rank, rows, cols)
    requires k < |us| && us[k].delta == Delta(a, b, scaling, cols)
    ensures ActsLike(Folded(w, us, us[k].base), w, bias, a, b, scaling, cols) <==> OthersCancel(us, k, rows, cols)
  {
    FoldKeepsSlotExactly(w, bias, us, k, rows, cols);
    var all, own := Folded(w, us, us[k].base), Plus(w, us[k].delta);
    forall x: Vec | |x| == cols
      ensures LinearOut(own, bias, x) == WrappedOut(LinearOut(w, bias, x), a, b, scaling, x)
    {
      FoldKeepsFunction(w, bias, a, b, scaling, rank, x);
    }
    if ActsLike(all, w, bias, a, b, scaling, cols) {
      assert SameLayer(all, own, bias, cols);
    }
  }

  lemma {:induction false} SameBeforeBias(u: Vec, v: Vec, bias: Option<Vec>)
    requires WithBias(u, bias) == WithBias(v, bias)
    ensures u == v
  {
    if bias.Some? {
      forall i | 0 <= i < |u|
        ensures u[i] == v[i]
      {
        assert WithBias(u, bias)[i] == WithBias(v, bias)[i];
      }
    }
  }
}
