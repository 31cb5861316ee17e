// Quantizing the linear layers of a model and folding them back
// (adapters/qlora.py:62-178).
module QuantizedModels {
  import opened Results
  import opened Matrices
  import opened LowRank
  import opened Quantization

  // A module with its children in the order of their names; Other is any module that
  // is not one of the three layers.
  datatype Module =
    | Linear(weight: Matrix, inFeatures: nat, bias: Option<Vec>)
    | QuantizedLinear(q: Quantized, inFeatures: nat)
    | LoRALinear(original: Module, loraA: Matrix, loraB: Matrix, rank: nat, scaling: real)
    | Other(kind: string, children: seq<Child>)

  datatype Child = Child(name: string, part: Module)

  // _quantize_module replaces below a module, ...
  function QuantizeBelow(m: Module): Module
    decreases m, 0
  {
    match m
    case Other(kind, cs) =>
      Other(kind, seq(|cs|, i requires 0 <= i < |cs| => Child(cs[i].name, QuantizeChild(cs[i].part))))
    case LoRALinear(o, a, b, r, s) => LoRALinear(QuantizeChild(o), a, b, r, s)
    case _ => m
  }

  // ... every linear layer it meets.
  function QuantizeChild(c: Module): Module
    decreases c, 1
  {
    if c.Linear? then QuantizedLinear(Quantize(c.weight, c.bias), c.inFeatures) else QuantizeBelow(c)
  }

  // _replace_with_linear
  function Unquantized(q: Quantized, cols: nat): Module {
    Linear(Weight(q), cols, q.bias)
  }

  // _fold_linears replaces below a module, ...
  function FoldBelow(m: Module): Module
    decreases m, 0
  {
    match m
    case Other(kind, cs) => Other(kind, seq(|cs|, i requires 0 <= i < |cs| => Child(cs[i].name, FoldChild(cs[i].part))))
    case LoRALinear(o, a, b, r, s) => LoRALinear(FoldChild(o), a, b, r, s)
    case _ => m
  }

  // ... every wrapper around a quantized layer and every quantized layer.
  function FoldChild(c: Module): Module
    decreases c, 1
  {
    if c.LoRALinear? && c.original.QuantizedLinear? then
      var o := c.original;
      Linear(Plus(Weight(o.q), Delta(c.loraA, c.loraB, c.scaling, o.inFeatures)), o.inFeatures, o.q.bias)
    else if c.QuantizedLinear? then Unquantized(c.q, c.inFeatures)
    else FoldBelow(c)
  }

  // ------------------------------------------------------------------
  // What the layers compute

  predicate IsLayer(m: Module) {
    match m
    case Linear(_, _, _) => true
    case QuantizedLinear(_, _) => true
    case LoRALinear(o, _, _, _, _) => IsLayer(o)
    case Other(_, _) => false
  }

  function Inputs(m: Module): nat
    requires IsLayer(m)
  {
    match m
    case Linear(_, n, _) => n
    case QuantizedLinear(_, n) => n
    case LoRALinear(o, _, _, _, _) => Inputs(o)
  }

  function Outputs(m: Module): nat
    requires IsLayer(m)
  {
    match m
    case Linear(w, _, _) => |w|
    case QuantizedLinear(q, _) => |q.ints|
    case LoRALinear(o, _, _, _, _) => Outputs(o)
  }

  function Forward(m: Module, x: Vec): Vec
    requires IsLayer(m)
  {
    match m
    case Linear(w, _, bias) => LinearOut(w, bias, x)
    case QuantizedLinear(q, _) => QuantizedOut(q, x)
    case LoRALinear(o, a, b, _, s) => WrappedOut(Forward(o, x), a, b, s, x)
  }

  ghost predicate RowsFit(q: Quantized, cols: nat) {
    |q.scales| == |q.ints| && forall i {:trigger q.ints[i]} :: 0 <= i < |q.ints| ==> |q.ints[i]| == cols
  }

  // The shapes of all parameters agree.
  ghost predicate WellShaped(m: Module) {
    match m
    case Linear(w, n, _) => Shape(w, |w|, n)
    case QuantizedLinear(q, n) => RowsFit(q, n)
    case LoRALinear(o, a, b, r, _) => IsLayer(o) && WellShaped(o) && Fits(a, b, r, Outputs(o), Inputs(o))
    case Other(_, cs) => forall i {:trigger cs[i]} :: 0 <= i < |cs| ==> WellShaped(cs[i].part)
  }

  ghost predicate SameForward(m: Module, n: Module)
    requires IsLayer(m) && IsLayer(n)
  {
    Inputs(m) == Inputs(n) && Outputs(m) == Outputs(n) &&
    forall x: Vec {:trigger Forward(m, x)} :: |x| == Inputs(m) ==> Forward(m, x) == Forward(n, x)
  }

  // Two models are put together in the same way from layers that compute the same.
  ghost predicate SameFunction(m: Module, n: Module)
    decreases m
  {
    if IsLayer(m) then IsLayer(n) && SameForward(m, n)
    else if m.Other? then
      && n.Other? && n.kind == m.kind && |n.children| == |m.children|
      && forall i {:trigger m.children[i]} :: 0 <= i < |m.children| ==>
           m.children[i].name == n.children[i].name && SameFunction(m.children[i].part, n.children[i].part)
    else m == n
  }

  lemma {:induction false} FoldedLayer(c: Module)
    requires IsLayer(c) && WellShaped(c)
    ensures IsLayer(FoldChild(c)) && SameForward(c, FoldChild(c))
    ensures IsLayer(FoldBelow(c)) && SameForward(c, FoldBelow(c))
  {
    match c
    case Linear(_, _, _) =>
      assert FoldChild(c) == c == FoldBelow(c);
    case QuantizedLinear(_, _) =>
      assert FoldBelow(c) == c;
    case LoRALinear(o, _, _, _, _) =>
      FoldedLayer(o);
      var below := FoldBelow(c);
      assert below == c.(original := FoldChild(o));
      assert IsLayer(below) && SameForward(c, below);
      if o.QuantizedLinear? {
        FoldedWrapper(c);
      } else {
        assert FoldChild(c) == below;
      }
  }

  // A wrapper around a quantized layer computes what the folded layer does.
  lemma {:induction false} FoldedWrapper(c: Module)
    requires c.LoRALinear? && c.original.QuantizedLinear? && WellShaped(c)
    ensures IsLayer(FoldChild(c)) && SameForward(c, FoldChild(c))
  {
    var o := c.original;
    var w := Weight(o.q);
    forall x: Vec | |x| == o.inFeatures
      ensures Forward(c, x) == Forward(FoldChild(c), x)
    {
      FoldKeepsFunction(w, o.q.bias, c.loraA, c.loraB, c.scaling, c.rank, x);
    }
  }

  // Folding keeps what every layer of the model computes.
  lemma {:induction false} FoldKeepsModel(m: Module)
    requires WellShaped(m)
    ensures SameFunction(m, FoldChild(m)) && SameFunction(m, FoldBelow(m))
  {
    if IsLayer(m) {
      FoldedLayer(m);
    } else if m.Other? {
      forall i | 0 <= i < |m.children|
        ensures SameFunction(m.children[i].part, FoldChild(m.children[i].part))
      {
        FoldKeepsModel(m.children[i].part);
      }
    }
  }

  predicate NoQuantized(m: Module) {
    match m
    case Linear(_, _, _) => true
    case QuantizedLinear(_, _) => false
    case LoRALinear(o, _, _, _, _) => NoQuantized(o)
    case Other(_, cs) => forall i {:trigger cs[i]} :: 0 <= i < |cs| ==> NoQuantized(cs[i].part)
  }

  // After the fold no quantized layer is left, and a model without any is not changed.
  lemma {:induction false} FoldRemovesQuantized(m: Module)
    ensures NoQuantized(FoldChild(m))
    ensures !m.QuantizedLinear? ==> NoQuantized(FoldBelow(m))
    ensures NoQuantized(m) ==> FoldChild(m) == m && FoldBelow(m) == m
  {
    match m
    case LoRALinear(o, _, _, _, _) =>
      FoldRemovesQuantized(o);
      assert FoldBelow(m) == m.(original := FoldChild(o));
    case Other(_, cs) =>
      forall i | 0 <= i < |cs|
        ensures NoQuantized(FoldChild(cs[i].part)) && (NoQuantized(cs[i].part) ==> FoldChild(cs[i].part) == cs[i].part)
      {
        FoldRemovesQuantized(cs[i].part);
      }
      if NoQuantized(m) {
        assert FoldBelow(m).children == cs;
      }
    case _ =>
  }

  // ------------------------------------------------------------------
  // Quantize, then fold

  // No weight row is empty: the largest entry of an empty row is an error.
  ghost predicate RowsNotEmpty(m: Module) {
    match m
    case Linear(w, _, _) => forall i {:trigger w[i]} :: 0 <= i < |w| ==> w[i] != []
    case QuantizedLinear(_, _) => true
    case LoRALinear(o, _, _, _, _) => RowsNotEmpty(o)
    case Other(_, cs) => forall i {:trigger cs[i]} :: 0 <= i < |cs| ==> RowsNotEmpty(cs[i].part)
  }

  // Every layer is a plain linear layer.
  ghost predicate Plain(m: Module) {
    match m
    case Linear(_, _, _) => true
    case Other(_, cs) => forall i {:trigger cs[i]} :: 0 <= i < |cs| ==> Plain(cs[i].part)
    case _ => false
  }

  lemma {:induction false} RequantizedLayer(w: Matrix, bias: Option<Vec>)
    requires forall i {:trigger w[i]} :: 0 <= i < |w| ==> w[i] != []
    ensures Quantize(Weight(Quantize(w, bias)), bias) == Quantize(w, bias)
  {
    var q := Quantize(w, bias);
    var back := Quantize(Weight(q), bias);
    forall i | 0 <= i < |w|
      ensures back.ints[i] == q.ints[i] && back.scales[i] == q.scales[i]
    {
      assert Weight(q)[i] == Dequantized(q.ints[i], q.scales[i]);
      QuantizingIsIdempotent(w[i]);
    }
    assert back.ints == q.ints && back.scales == q.scales;
  }

  // Folding a quantized model and quantizing it again gives the same quantized model.
  lemma {:induction false} QuantizeAfterFold(m: Module)
    requires Plain(m) && RowsNotEmpty(m)
    ensures QuantizeChild(FoldChild(QuantizeChild(m))) == QuantizeChild(m)
  {
    match m
    case Linear(w, n, bias) => RequantizedLayer(w, bias);
    case Other(kind, cs) =>
      var q := QuantizeChild(m);
      assert q == QuantizeBelow(m);
      forall i | 0 <= i < |cs|
        ensures QuantizeChild(FoldChild(q.children[i].part)) == q.children[i].part
      {
        QuantizeAfterFold(cs[i].part);
      }
      var back := FoldChild(q);
      assert back == FoldBelow(q) && QuantizeChild(back) == QuantizeBelow(back);
      assert QuantizeChild(back).children == q.children;
  }

  // A wrapper put on a quantized layer and merged computes, up to half a step of each
  // row for each unit of input, what the wrapper would around the original layer.
  lemma {:induction false} MergeError(w: Matrix, bias: Option<Vec>, a: Matrix, b: Matrix, rank: nat, scaling: real,
      x: Vec, i: nat)
    requires Shape(w, |w|, |x|) && Fits(a, b, rank, |w|, |x|) && i < |w|
    ensures var merged := FoldChild(LoRALinear(QuantizeChild(Linear(w, |x|, bias)), a, b, rank, scaling));
      var exact := LoRALinear(Linear(w, |x|, bias), a, b, rank, scaling);
      |Forward(merged, x)| == |Forward(exact, x)| == |w| &&
      Abs(Forward(merged, x)[i] - Forward(exact, x)[i]) <= Mul(HalfStep(w[i]), AbsSum(x))
  {
    var q := Quantize(w, bias);
    assert QuantizeChild(Linear(w, |x|, bias)) == QuantizedLinear(q, |x|);
    FoldKeepsFunction(Weight(q), bias, a, b, scaling, rank, x);
    ForwardError(w, bias, x, i);
  }

  ghost predicate NoLinear(m: Module) {
    match m
    case Linear(_, _, _) => false
    case QuantizedLinear(_, _) => true
    case LoRALinear(o, _, _, _, _) => NoLinear(o)
    case Other(_, cs) => forall i {:trigger cs[i]} :: 0 <= i < |cs| ==> NoLinear(cs[i].part)
  }

  // After quantizing no linear layer is left below the model.
  lemma {:induction false} QuantizeReplacesAll(m: Module)
    ensures NoLinear(QuantizeChild(m)) && (!m.Linear? ==> NoLinear(QuantizeBelow(m)))
  {
    match m
    case LoRALinear(o, _, _, _, _) =>
      QuantizeReplacesAll(o);
      assert QuantizeChild(m) == QuantizeBelow(m) == m.(original := QuantizeChild(o));
    case Other(_, cs) =>
      assert QuantizeChild(m) == QuantizeBelow(m);
      forall i | 0 <= i < |cs|
        ensures NoLinear(QuantizeChild(cs[i].part))
      {
        QuantizeReplacesAll(cs[i].part);
      }
    case QuantizedLinear(_, _) =>
      assert QuantizeChild(m) == QuantizeBelow(m) == m;
    case Linear(_, _, _) =>
      assert QuantizeChild(m).QuantizedLinear?;
  }

  // Wrappers stand around linear layers, quantized or not.
  ghost predicate DirectWrappers(m: Module) {
    match m
    case LoRALinear(o, _, _, _, _) => o.Linear? || o.QuantizedLinear?
    case Other(_, cs) => forall i {:trigger cs[i]} :: 0 <= i < |cs| ==> DirectWrappers(cs[i].part)
    case _ => true
  }

  // Merging a quantized model leaves plain linear layers, and no wrapper.
  lemma {:induction false} MergedIsPlain(m: Module)
    requires DirectWrappers(m)
    ensures Plain(FoldChild(QuantizeChild(m))) && (m.Other? ==> Plain(FoldBelow(QuantizeBelow(m))))
  {
    match m
    case Other(_, cs) =>
      var q := QuantizeBelow(m);
      assert QuantizeChild(m) == q && FoldChild(q) == FoldBelow(q);
      forall i | 0 <= i < |cs|
        ensures Plain(FoldChild(q.children[i].part))
      {
        MergedIsPlain(cs[i].part);
      }
    case LoRALinear(o, _, _, _, _) =>
      var q := QuantizeChild(m);
      assert q == QuantizeBelow(m) == m.(original := QuantizeChild(o));
      assert o.QuantizedLinear? ==> QuantizeChild(o) == QuantizeBelow(o) == o;
      assert q.LoRALinear? && q.original.QuantizedLinear?;
      assert FoldChild(q).Linear?;
    case Linear(_, _, _) =>
      assert QuantizeChild(m).QuantizedLinear?;
    case QuantizedLinear(_, _) =>
      assert QuantizeChild(m) == QuantizeBelow(m) == m;
  }

  // ------------------------------------------------------------------
  // The error over a whole model

  // Half the quantization step of a layer's i-th row: that of the weights it is built on,
  // none when they are quantized already.
  function MarginOf(m: Module, i: int): real
    requires IsLayer(m)
  {
    match m
    case Linear(w, _, _) => if 0 <= i < |w| then HalfStep(w[i]) else 0.0
    case QuantizedLinear(_, _) => 0.0
    case LoRALinear(o, _, _, _, _) => MarginOf(o, i)
  }

  // Every output of the layers agrees up to half a step for each unit of input.
  ghost predicate NearForward(m: Module, n: Module)
    requires IsLayer(m) && IsLayer(n)
  {
    Inputs(m) == Inputs(n) && Outputs(m) == Outputs(n) &&
    forall x: Vec {:trigger Forward(n, x)} :: |x| == Inputs(m) ==>
      NearOutputs(m, x, Forward(m, x), Forward(n, x))
  }

  ghost predicate NearOutputs(m: Module, x: Vec, y: Vec, z: Vec)
    requires IsLayer(m)
  {
    |y| == |z| && forall i {:trigger z[i]} :: 0 <= i < |y| ==> Abs(z[i] - y[i]) <= Mul(MarginOf(m, i), AbsSum(x))
  }

  // Two models are put together in the same way from layers that are near.
  ghost predicate NearFunction(m: Module, n: Module)
    decreases m
  {
    if IsLayer(m) then IsLayer(n) && NearForward(m, n)
    else if m.Other? then
      && n.Other? && n.kind == m.kind && |n.children| == |m.children|
      && forall i {:trigger m.children[i]} :: 0 <= i < |m.children| ==>
           m.children[i].name == n.children[i].name && NearFunction(m.children[i].part, n.children[i].part)
    else m == n
  }

  lemma {:induction false} AbsSumNonNegative(x: Vec)
    ensures AbsSum(x) >= 0.0
  {
    SumBound(|x|, j => 0.0, j => Abs(At(x, j)));
    assert Abs(Sum(|x|, j => 0.0)) >= 0.0;
  }

  lemma {:induction false} MarginNonNegative(m: Module, i: int)
    requires IsLayer(m)
    ensures MarginOf(m, i) >= 0.0
  {
    if m.LoRALinear? {
      MarginNonNegative(m.original, i);
    }
  }

  lemma {:induction false} NearItself(m: Module)
    requires IsLayer(m)
    ensures NearForward(m, m)
  {
    forall x: Vec | |x| == Inputs(m)
      ensures NearOutputs(m, x, Forward(m, x), Forward(m, x))
    {
      var y := Forward(m, x);
      forall i | 0 <= i < |y|
        ensures Abs(y[i] - y[i]) <= Mul(MarginOf(m, i), AbsSum(x))
      {
        AbsSumNonNegative(x);
        MarginNonNegative(m, i);
        MulNonNegative(MarginOf(m, i), AbsSum(x));
      }
    }
  }

  lemma {:induction false} QuantizedFits(w: Matrix, cols: nat, bias: Option<Vec>)
    requires Shape(w, |w|, cols)
    ensures RowsFit(Quantize(w, bias), cols)
  {
    var q := Quantize(w, bias);
    forall i | 0 <= i < |q.ints|
      ensures |q.ints[i]| == cols
    {
      assert |w[i]| == cols;
    }
  }

  lemma {:induction false} QuantizedOutputs(w: Matrix, bias: Option<Vec>, x: Vec)
    requires Shape(w, |w|, |x|)
    ensures NearOutputs(Linear(w, |x|, bias), x, LinearOut(w, bias, x), QuantizedOut(Quantize(w, bias), x))
  {
    var y, z := LinearOut(w, bias, x), QuantizedOut(Quantize(w, bias), x);
    forall i | 0 <= i < |w|
      ensures Abs(z[i] - y[i]) <= Mul(HalfStep(w[i]), AbsSum(x))
    {
      ForwardError(w, bias, x, i);
    }
  }

  lemma {:induction false} QuantizedLinearNear(m: Module)
    requires m.Linear? && WellShaped(m)
    ensures NearForward(m, QuantizeChild(m)) && WellShaped(QuantizeChild(m))
  {
    QuantizedFits(m.weight, m.inFeatures, m.bias);
    forall x: Vec | |x| == m.inFeatures
      ensures NearOutputs(m, x, Forward(m, x), Forward(QuantizeChild(m), x))
    {
      QuantizedOutputs(m.weight, m.bias, x);
    }
  }

  // A wrapper adds the same to both.
  lemma {:induction false} WrappedNear(m: Module, o: Module)
    requires m.LoRALinear? && IsLayer(m) && IsLayer(o) && NearForward(m.original, o)
    ensures NearForward(m, m.(original := o))
  {
    var n := m.(original := o);
    forall x: Vec | |x| == Inputs(m)
      ensures NearOutputs(m, x, Forward(m, x), Forward(n, x))
    {
      assert NearOutputs(m.original, x, Forward(m.original, x), Forward(o, x));
      forall i | 0 <= i < |Forward(m, x)|
        ensures Abs(Forward(n, x)[i] - Forward(m, x)[i]) <= Mul(MarginOf(m, i), AbsSum(x))
      {
        assert Forward(n, x)[i] - Forward(m, x)[i] == Forward(o, x)[i] - Forward(m.original, x)[i];
      }
    }
  }

  lemma {:induction false} QuantizedLayerNear(m: Module)
    requires IsLayer(m) && WellShaped(m)
    ensures IsLayer(QuantizeChild(m)) && WellShaped(QuantizeChild(m)) && NearForward(m, QuantizeChild(m))
    ensures IsLayer(QuantizeBelow(m)) && WellShaped(QuantizeBelow(m)) && NearForward(m, QuantizeBelow(m))
  {
    match m
    case Linear(_, _, _) =>
      QuantizedLinearNear(m);
      NearItself(m);
    case QuantizedLinear(_, _) =>
      NearItself(m);
    case LoRALinear(o, _, _, _, _) =>
      QuantizedLayerNear(o);
      WrappedNear(m, QuantizeChild(o));
      assert QuantizeChild(m) == QuantizeBelow(m) == m.(original := QuantizeChild(o));
  }

  lemma {:induction false} QuantizedNear(m: Module)
    requires WellShaped(m)
    ensures WellShaped(QuantizeChild(m)) && NearFunction(m, QuantizeChild(m))
    ensures WellShaped(QuantizeBelow(m)) && NearFunction(m, QuantizeBelow(m))
  {
    if IsLayer(m) {
      QuantizedLayerNear(m);
    } else if m.Other? {
      forall i | 0 <= i < |m.children|
        ensures WellShaped(QuantizeChild(m.children[i].part))
        ensures NearFunction(m.children[i].part, QuantizeChild(m.children[i].part))
      {
        QuantizedNear(m.children[i].part);
      }
    }
  }

  lemma {:induction false} NearThenSame(m: Module, q: Module, f: Module)
    requires NearFunction(m, q) && SameFunction(q, f)
    ensures NearFunction(m, f)
  {
    if IsLayer(m) {
      forall x: Vec | |x| == Inputs(m)
        ensures NearOutputs(m, x, Forward(m, x), Forward(f, x))
      {
        assert Forward(f, x) == Forward(q, x);
      }
    } else if m.Other? {
      forall i | 0 <= i < |m.children|
        ensures NearFunction(m.children[i].part, f.children[i].part)
      {
        NearThenSame(m.children[i].part, q.children[i].part, f.children[i].part);
      }
    }
  }

  // Wrapping a quantized layer gives the same as quantizing the layer under its wrapper.
  // Quantizing a model with its wrappers, and merging them into plain layers, keeps how
  // the model is put together, and every layer up to half a quantization step of each
  // row for each unit of input.
  lemma {:induction false} MergedModelError(m: Module)
    requires WellShaped(m)
    ensures NearFunction(m, FoldChild(QuantizeChild(m))) && NearFunction(m, FoldBelow(QuantizeBelow(m)))
  {
    QuantizedNear(m);
    FoldKeepsModel(QuantizeChild(m));
    FoldKeepsModel(QuantizeBelow(m));
    NearThenSame(m, QuantizeChild(m), FoldChild(QuantizeChild(m)));
    NearThenSame(m, QuantizeBelow(m), FoldBelow(QuantizeBelow(m)));
  }
}
