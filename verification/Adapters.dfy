// Attaching, activating and merging low-rank adapters (adapters/lora.py,
// adapters/peft.py).
module Adapters {
  import opened Results
  import opened Seqs
  import opened PythonStrings
  import opened Matrices
  import opened LowRank

  // nn.Parameter: the weights of a layer, of a fixed shape.  Layers may share one.
  class Parameter {
    const rows: nat
    const cols: nat
    var data: Matrix

    constructor (data: Matrix, cols: nat)
      ensures this.data == data && rows == |data| && this.cols == cols
    {
      this.data, this.rows, this.cols := data, |data|, cols;
    }

    ghost predicate Valid()
      reads this
    {
      Shape(data, rows, cols)
    }
  }

  // nn.Linear
  class Linear {
    const weight: Parameter
    const bias: Option<Vec>

    constructor (weight: Parameter, bias: Option<Vec>)
      ensures this.weight == weight && this.bias == bias
    {
      this.weight, this.bias := weight, bias;
    }

    function InFeatures(): nat {
      weight.cols
    }

    function OutFeatures(): nat {
      weight.rows
    }

    function Forward(x: Vec): Vec
      reads weight
    {
      LinearOut(weight.data, bias, x)
    }
  }

  class LoRALinear {
    const original: Linear
    const rank: nat
    const scaling: real
    var loraA: Matrix
    var loraB: Matrix

    ghost predicate Valid()
      reads this
    {
      Fits(loraA, loraB, rank, original.OutFeatures(), original.InFeatures())
    }

    // The random initial value of A is the caller's; B starts at zero.
    constructor (original: Linear, rank: nat, alpha: real, initialA: Matrix)
      requires rank > 0 && Shape(initialA, rank, original.InFeatures())
      ensures Valid() && this.original == original && this.rank == rank && loraA == initialA
      ensures Mul(rank as real, scaling) == alpha
      ensures forall x: Vec {:trigger Forward(x)} :: Forward(x) == original.Forward(x)
    {
      this.original, this.rank, this.scaling := original, rank, Scaling(alpha, rank);
      loraA, loraB := initialA, Zeros(original.OutFeatures(), rank);
      new;
      forall x: Vec
        ensures Forward(x) == original.Forward(x)
      {
        ZeroUpdateIsInvisible(original.Forward(x), loraA, loraB, scaling, x);
      }
    }

    function Forward(x: Vec): Vec
      reads this, original.weight
    {
      WrappedOut(original.Forward(x), loraA, loraB, scaling, x)
    }

    // What training does, as far as merging is concerned: other matrices of the same
    // shapes.
    method Train(a: Matrix, b: Matrix)
      requires Fits(a, b, rank, original.OutFeatures(), original.InFeatures())
      modifies this
      ensures Valid() && loraA == a && loraB == b
    {
      loraA, loraB := a, b;
    }

    function Change(): (d: Matrix)
      reads this
      ensures Shape(d, |loraB|, original.InFeatures())
    {
      Delta(loraA, loraB, scaling, original.InFeatures())
    }
  }

  function Scaling(alpha: real, rank: nat): (s: real)
    requires rank > 0
    ensures Mul(rank as real, s) == alpha
  {
    alpha / rank as real
  }

  function Zeros(rows: nat, cols: nat): (m: Matrix)
    ensures Shape(m, rows, cols)
    ensures forall i {:trigger m[i]} :: 0 <= i < rows ==> forall j :: 0 <= j < cols ==> m[i][j] == 0.0
  {
    seq(rows, i => seq(cols, j => 0.0))
  }

  // A wrapper adds alpha / rank of what its two matrices make of the input.
  lemma {:induction false} WrapperAdds(w: LoRALinear, alpha: real, x: Vec, i: nat)
    requires Mul(w.rank as real, w.scaling) == alpha && w.Valid()
    requires w.original.weight.Valid() && i < w.original.weight.rows
    ensures |w.original.Forward(x)| == w.original.weight.rows
    ensures |w.Forward(x)| == w.original.weight.rows
    ensures Mul(w.rank as real, w.Forward(x)[i] - w.original.Forward(x)[i])
         == Mul(alpha, Times(Times(x, w.loraA), w.loraB)[i])
  {
    var y := Times(Times(x, w.loraA), w.loraB)[i];
    assert w.Forward(x)[i] - w.original.Forward(x)[i] == Mul(y, w.scaling);
    MulSwap(y, w.scaling, w.rank as real);
    MulCommutes(w.rank as real, Mul(y, w.scaling));
    MulCommutes(y, Mul(w.rank as real, w.scaling));
  }

  // ------------------------------------------------------------------
  // The model's attributes

  datatype Slot = Slot(parent: int, attr: string)

  datatype Child = PlainLinear(linear: Linear) | Wrapped(wrapper: LoRALinear) | OtherModule

  // _resolve_base_linear
  function ResolveBase(c: Child): Option<Linear> {
    match c
    case PlainLinear(l) => Some(l)
    case Wrapped(w) => Some(w.original)
    case OtherModule => None
  }

  // The attributes in the order a traversal visits them.
  class Model {
    const order: seq<Slot>
    var children: map<Slot, Child>

    constructor (order: seq<Slot>, children: map<Slot, Child>)
      ensures this.order == order && this.children == children
    {
      this.order, this.children := order, children;
    }

    ghost predicate Ordered()
      reads this
    {
      NoDup(order) && Elems(order) == children.Keys
    }

    ghost predicate Valid()
      reads this, BasesOf(children)
    {
      Ordered() && AllShaped(BasesOf(children))
    }
  }

  // The weights of the base layers behind the attributes.
  function BasesOf(children: map<Slot, Child>): set<Parameter> {
    set s | s in children && ResolveBase(children[s]).Some? :: ResolveBase(children[s]).value.weight
  }

  ghost predicate AllShaped(ls: set<Parameter>)
    reads ls
  {
    forall l {:trigger l in ls} :: l in ls ==> l.Valid()
  }

  // What attach, activate and merge raise.
  datatype PeftError = AlreadyAttached | OtherModel | NoneMatched | BadRank | NotAttached | NoModel

  // The name an adapter is attached under.
  datatype AdapterId = AdapterId(name: string)

  datatype Installation = Installation(slot: Slot, original: Linear, wrapper: LoRALinear)

  // What installing the wrappers, or putting the originals back, does.
  function Wire(children: map<Slot, Child>, insts: seq<Installation>): (r: map<Slot, Child>)
  {
    if insts == [] then children
    else Wire(children, insts[..|insts| - 1])[insts[|insts| - 1].slot := Wrapped(insts[|insts| - 1].wrapper)]
  }

  // The given slots hold the base that was behind them, the others are as before.
  ghost predicate PutBack(was: map<Slot, Child>, now: map<Slot, Child>, slots: set<Slot>) {
    && now.Keys == was.Keys
    && forall s {:trigger now[s]} :: s in was ==>
         now[s] == if s in slots && ResolveBase(was[s]).Some? then PlainLinear(ResolveBase(was[s]).value) else was[s]
  }

  // The installation is one of this model: its original is the base behind its slot.
  predicate Belongs(children: map<Slot, Child>, i: Installation) {
    && i.slot in children && ResolveBase(children[i.slot]) == Some(i.original)
    && i.wrapper.original == i.original
  }

  ghost predicate AllBelong(children: map<Slot, Child>, insts: seq<Installation>) {
    forall k {:trigger insts[k]} :: 0 <= k < |insts| ==> Belongs(children, insts[k])
  }

  // Both models have the same slots with the same base behind each.
  ghost predicate SameBases(c: map<Slot, Child>, d: map<Slot, Child>) {
    c.Keys == d.Keys && forall s {:trigger d[s]} {:trigger c[s]} :: s in c ==> ResolveBase(c[s]) == ResolveBase(d[s])
  }

  lemma {:induction false} BasesKept(c: map<Slot, Child>, d: map<Slot, Child>)
    requires SameBases(c, d)
    ensures BasesOf(c) == BasesOf(d)
  {
    forall l
      ensures l in BasesOf(c) <==> l in BasesOf(d)
    {
      if l in BasesOf(c) {
        var s :| s in c && ResolveBase(c[s]).Some? && ResolveBase(c[s]).value.weight == l;
        assert ResolveBase(d[s]) == ResolveBase(c[s]);
      }
      if l in BasesOf(d) {
        var s :| s in d && ResolveBase(d[s]).Some? && ResolveBase(d[s]).value.weight == l;
        assert ResolveBase(c[s]) == ResolveBase(d[s]);
      }
    }
  }

  lemma {:induction false} BelongsKept(c: map<Slot, Child>, d: map<Slot, Child>, insts: seq<Installation>)
    requires SameBases(c, d) && AllBelong(c, insts)
    ensures AllBelong(d, insts)
  {
    forall k | 0 <= k < |insts|
      ensures Belongs(d, insts[k])
    {
      assert Belongs(c, insts[k]);
    }
  }

  lemma {:induction false} WireKeepsBases(c: map<Slot, Child>, insts: seq<Installation>)
    requires AllBelong(c, insts)
    ensures SameBases(c, Wire(c, insts))
  {
    if insts != [] {
      var n := |insts| - 1;
      forall k | 0 <= k < n
        ensures Belongs(c, insts[..n][k])
      {
        assert insts[..n][k] == insts[k];
      }
      WireKeepsBases(c, insts[..n]);
      assert Belongs(c, insts[n]);
    }
  }

  ghost predicate Covers(insts: seq<Installation>, s: Slot) {
    exists k {:trigger insts[k]} :: 0 <= k < |insts| && insts[k].slot == s
  }

  function SlotsOf(insts: seq<Installation>): (r: seq<Slot>)
    ensures |r| == |insts| && forall k {:trigger r[k]} :: 0 <= k < |r| ==> r[k] == insts[k].slot
  {
    seq(|insts|, k requires 0 <= k < |insts| => insts[k].slot)
  }

  ghost predicate DistinctSlots(insts: seq<Installation>) {
    NoDup(SlotsOf(insts))
  }

  // Wired: each slot holds the wrapper of its installation, the others are as before.
  lemma {:induction false} WiredAt(c: map<Slot, Child>, insts: seq<Installation>, s: Slot)
    requires DistinctSlots(insts)
    ensures !Covers(insts, s) ==> (s in Wire(c, insts) <==> s in c) && (s in c ==> Wire(c, insts)[s] == c[s])
    ensures forall k {:trigger insts[k]} :: 0 <= k < |insts| && insts[k].slot == s ==>
      s in Wire(c, insts) && Wire(c, insts)[s] == Wrapped(insts[k].wrapper)
  {
    if insts != [] {
      var n := |insts| - 1;
      assert SlotsOf(insts) == SlotsOf(insts[..n]) + [insts[n].slot];
      NoDupSnoc(SlotsOf(insts[..n]), insts[n].slot);
      WiredAt(c, insts[..n], s);
      assert insts[n].slot == s ==> Covers(insts, s);
      if Covers(insts[..n], s) {
        var k :| 0 <= k < n && insts[..n][k].slot == s;
        assert insts[k].slot == s;
      }
      forall k | 0 <= k < |insts| && insts[k].slot == s
        ensures s in Wire(c, insts) && Wire(c, insts)[s] == Wrapped(insts[k].wrapper)
      {
        if k < n {
          assert insts[..n][k] == insts[k] && SlotsOf(insts[..n])[k] == s;
        }
      }
    }
  }

  lemma {:induction false} PutBackKeepsBases(was: map<Slot, Child>, now: map<Slot, Child>, slots: set<Slot>)
    requires PutBack(was, now, slots)
    ensures SameBases(was, now)
  {
  }

  // Every slot that some adapter was installed in.
  function AllSlots(attached: map<AdapterId, seq<Installation>>, names: seq<AdapterId>): set<Slot> {
    if names == [] then {}
    else
      var n := |names| - 1;
      AllSlots(attached, names[..n]) + if names[n] in attached then Elems(SlotsOf(attached[names[n]])) else {}
  }

  // ------------------------------------------------------------------

  // The attribute is a target and holds something with a base layer.
  predicate Matches(children: map<Slot, Child>, targets: seq<string>, s: Slot) {
    && (exists t :: t in targets && Contains(s.attr, t))
    && s in children && ResolveBase(children[s]).Some?
  }

  // An attribute matches when it holds a linear layer or a wrapper and one of the
  // targets is part of its name.
  lemma {:induction false} MatchesExactly(children: map<Slot, Child>, targets: seq<string>, s: Slot)
    ensures Matches(children, targets, s) <==>
      && s in children && (children[s].PlainLinear? || children[s].Wrapped?)
      && exists t, a, b {:trigger Around(s.attr, a, t, b), t in targets} :: t in targets && Around(s.attr, a, t, b)
  {
    if Matches(children, targets, s) {
      var t :| t in targets && Contains(s.attr, t);
      ContainsExactly(s.attr, t);
      var a, b :| Around(s.attr, a, t, b);
    }
    if t, a, b :| t in targets && Around(s.attr, a, t, b) {
      ContainsExactly(s.attr, t);
    }
  }

  ghost predicate AnyMatch(order: seq<Slot>, children: map<Slot, Child>, targets: seq<string>) {
    exists s {:trigger s in order} :: s in order && Matches(children, targets, s)
  }

  // What merging the installations folds into which base.
  ghost function Updates(insts: seq<Installation>): (us: seq<Update<Parameter>>)
    reads set i | i in insts :: i.wrapper
    ensures |us| == |insts|
    ensures forall k {:trigger us[k]} :: 0 <= k < |us| ==>
      us[k] == Update(insts[k].original.weight, insts[k].wrapper.Change())
  {
    if insts == [] then []
    else
      var n := |insts| - 1;
      Updates(insts[..n]) + [Update(insts[n].original.weight, insts[n].wrapper.Change())]
  }

  // The first n slots of the traversal were visited, and those that match wrapped.
  ghost predicate Visited(was: map<Slot, Child>, now: map<Slot, Child>, insts: seq<Installation>, order: seq<Slot>,
      n: nat, targets: seq<string>)
    requires n <= |order|
  {
    && now == Wire(was, insts) && AllBelong(was, insts) && DistinctSlots(insts)
    && SlotsOf(insts) == Filter(order[..n], s => Matches(was, targets, s))
  }

  // One slot is wrapped.
  method Wrap(m: Model, s: Slot, base: Linear, rank: nat, alpha: real) returns (inst: Installation)
    requires rank > 0
    modifies m
    ensures inst.slot == s && inst.original == base && inst.wrapper.original == base
    ensures fresh(inst.wrapper) && Prepared(inst.wrapper, rank, alpha)
    ensures m.children == old(m.children)[s := Wrapped(inst.wrapper)]
  {
    assert Shape(Zeros(rank, base.InFeatures()), rank, base.InFeatures());
    var initialA: Matrix :| Shape(initialA, rank, base.InFeatures());
    var wrapper := new LoRALinear(base, rank, alpha, initialA);
    m.children := m.children[s := Wrapped(wrapper)];
    inst := Installation(s, base, wrapper);
  }

  // The next slot matches and is wrapped.
  method WrapNext(m: Model, insts: seq<Installation>, n: nat, rank: nat, alpha: real, ghost targets: seq<string>,
      ghost was: map<Slot, Child>) returns (more: seq<Installation>)
    requires n < |m.order| && Matches(m.children, targets, m.order[n]) && rank > 0
    requires Visited(was, m.children, insts, m.order, n, targets) && AllPrepared(insts, rank, alpha)
    requires m.order[n] in was && m.children[m.order[n]] == was[m.order[n]] && !Covers(insts, m.order[n])
    modifies m
    ensures Visited(was, m.children, more, m.order, n + 1, targets) && AllPrepared(more, rank, alpha)
    ensures forall k {:trigger more[k]} :: 0 <= k < |more| ==>
      (k < |insts| && more[k] == insts[k]) || fresh(more[k].wrapper)
  {
    ghost var now := m.children;
    var inst := Wrap(m, m.order[n], ResolveBase(m.children[m.order[n]]).value, rank, alpha);
    OneVisited(was, now, insts, inst, m.order, n, targets);
    more := insts + [inst];
  }

  // The loop body of attach: the next slot is wrapped if it matches.
  method VisitSlot(m: Model, insts: seq<Installation>, n: nat, rank: int, alpha: real, targets: seq<string>,
      ghost was: map<Slot, Child>) returns (r: Result<seq<Installation>, PeftError>)
    requires NoDup(m.order) && Elems(m.order) == was.Keys && n < |m.order| && (insts != [] ==> rank > 0)
    requires Visited(was, m.children, insts, m.order, n, targets) && AllPrepared(insts, rank, alpha)
    modifies m
    ensures r.Err? ==> r.error == BadRank && rank <= 0 && m.children == old(m.children)
    ensures r.Err? ==> Matches(old(m.children), targets, m.order[n])
    ensures r.Ok? ==> Visited(was, m.children, r.value, m.order, n + 1, targets)
    ensures r.Ok? ==> AllPrepared(r.value, rank, alpha) && (r.value != [] ==> rank > 0)
    ensures r.Ok? ==> forall k {:trigger r.value[k]} :: 0 <= k < |r.value| ==>
      (k < |insts| && r.value[k] == insts[k]) || fresh(r.value[k].wrapper)
  {
    NextVisited(was, m.children, insts, m.order, n, targets);
    if !Matches(m.children, targets, m.order[n]) {
      return Ok(insts);
    }
    if rank <= 0 {
      return Err(BadRank);
    }
    var more := WrapNext(m, insts, n, rank, alpha, targets, was);
    return Ok(more);
  }

  // The traversal of attach: every slot that matches is wrapped around its base.
  method WrapTargets(m: Model, rank: int, alpha: real, targets: seq<string>)
      returns (r: Result<seq<Installation>, PeftError>)
    requires m.Ordered()
    modifies m
    ensures m.Ordered()
    ensures r.Ok? <==> rank > 0 && AnyMatch(m.order, old(m.children), targets)
    ensures r.Err? ==> m.children == old(m.children)
    ensures r.Err? ==> r.error == if AnyMatch(m.order, old(m.children), targets) then BadRank else NoneMatched
    ensures r.Ok? ==> r.value != [] && Visited(old(m.children), m.children, r.value, m.order, |m.order|, targets)
    ensures r.Ok? ==> AllPrepared(r.value, rank, alpha)
    ensures r.Ok? ==> forall k {:trigger r.value[k]} :: 0 <= k < |r.value| ==> fresh(r.value[k].wrapper)
  {
    var insts: seq<Installation> := [];
    ghost var was := m.children;
    for n := 0 to |m.order|
      invariant Visited(was, m.children, insts, m.order, n, targets)
      invariant insts != [] ==> rank > 0
      invariant AllPrepared(insts, rank, alpha)
      invariant forall k {:trigger insts[k]} :: 0 <= k < |insts| ==> fresh(insts[k].wrapper)
    {
      var more := VisitSlot(m, insts, n, rank, alpha, targets, was);
      if more.Err? {
        assert m.order[n] in m.order;
        return Err(more.error);
      }
      insts := more.value;
    }
    VisitedAll(was, m.children, insts, m.order, targets);
    if insts == [] {
      return Err(NoneMatched);
    }
    return Ok(insts);
  }

  function Bases(insts: seq<Installation>): set<Parameter> {
    set i | i in insts :: i.original.weight
  }

  // With the weights after the merge, the base computes for every input what its
  // wrapper computed with the weights before.
  ghost predicate MergedLike(before: map<Parameter, Matrix>, after: map<Parameter, Matrix>, i: Installation)
    requires i.original.weight in before && i.original.weight in after
    reads i.wrapper
  {
    ActsLike(after[i.original.weight], before[i.original.weight], i.original.bias, i.wrapper.loraA, i.wrapper.loraB,
      i.wrapper.scaling, i.original.InFeatures())
  }

  // What the base of the k-th installation computes after the merge, where before and
  // after are the weights of the bases: for every input what its wrapper computed,
  // exactly when the other updates folded into the same base cancel out.
  ghost predicate KeptExactly(i: Installation, before: map<Parameter, Matrix>, after: map<Parameter, Matrix>,
      us: seq<Update<Parameter>>, k: nat)
    requires k < |us| && i.original.weight in before && i.original.weight in after
    reads i.wrapper
  {
    MergedLike(before, after, i) <==>
      OthersCancel(us, k, i.original.OutFeatures(), i.original.InFeatures())
  }

  // The k-th update is that of the installation.
  ghost predicate UpdateOf(i: Installation, us: seq<Update<Parameter>>, k: nat)
    reads i.wrapper
  {
    && k < |us| && us[k] == Update(i.original.weight, i.wrapper.Change())
    && i.wrapper.original == i.original && i.wrapper.Valid()
  }

  lemma {:induction false} MergeKeepsFunctionExactly(before: map<Parameter, Matrix>, after: map<Parameter, Matrix>,
      i: Installation, us: seq<Update<Parameter>>, k: nat)
    requires UpdateOf(i, us, k) && i.original.weight in before && ShapedWeights(before) && AllFolded(before, after, us)
    ensures KeptExactly(i, before, after, us, k)
  {
    var base, w := i.original, i.wrapper;
    ActsLikeExactly(before[base.weight], base.bias, us, k, w.loraA, w.loraB, w.scaling, w.rank, base.OutFeatures(),
      base.InFeatures());
  }

  // In particular when no other wrapper of the adapter has the same base.
  lemma {:induction false} MergeKeepsFunction(before: map<Parameter, Matrix>, after: map<Parameter, Matrix>,
      i: Installation, us: seq<Update<Parameter>>, k: nat)
    requires UpdateOf(i, us, k) && i.original.weight in before && ShapedWeights(before) && AllFolded(before, after, us)
    requires forall j {:trigger us[j]} :: 0 <= j < |us| && j != k ==> us[j].base != i.original.weight
    ensures MergedLike(before, after, i)
  {
    SoleWrapperCancels(us, k, i.original.OutFeatures(), i.original.InFeatures());
    MergeKeepsFunctionExactly(before, after, i, us, k);
  }

  // The smallest failure: two layers of an adapter on one weight, be they one layer in
  // two slots or two layers that share their Parameter.  The weight takes both updates,
  // and neither layer computes what its wrapper did.
  lemma {:induction false} TiedWeightChanges(before: map<Parameter, Matrix>, after: map<Parameter, Matrix>,
      i: Installation, j: Installation, us: seq<Update<Parameter>>)
    requires |us| == 2 && UpdateOf(i, us, 0) && UpdateOf(j, us, 1) && i.original.weight == j.original.weight
    requires i.wrapper.Change() == [[1.0]] && j.wrapper.Change() == [[2.0]]
    requires i.original.weight in before && before[i.original.weight] == [[0.0]]
    requires ShapedWeights(before) && AllFolded(before, after, us)
    ensures after[i.original.weight] == [[3.0]]
    ensures !MergedLike(before, after, i) && !MergedLike(before, after, j)
  {
    var p := i.original.weight;
    assert Shape(before[p], p.rows, p.cols) && us == [us[0], us[1]];
    TwoFolded(us[0], us[1]);
    OtherAdds(us[0], us[1]);
    MergeKeepsFunctionExactly(before, after, i, us, 0);
    MergeKeepsFunctionExactly(before, after, j, us, 1);
  }

  lemma {:induction false} TwoFolded<L>(one: Update<L>, two: Update<L>)
    requires one == Update(two.base, [[1.0]]) && two.delta == [[2.0]]
    ensures Folded([[0.0]], [one, two], two.base) == [[3.0]]
  {
    OneByOne(0.0, 1.0);
    OneByOne(1.0, 2.0);
    assert [one, two][..1] == [one] && [one][..0] == [];
    assert Folded([[0.0]], [one], two.base) == [[1.0]];
  }

  lemma {:induction false} OtherAdds<L>(one: Update<L>, two: Update<L>)
    requires one.base == two.base && one.delta == [[1.0]] && two.delta == [[2.0]]
    ensures OthersAdd([one, two], 0, 0, 0) == 2.0 && OthersAdd([one, two], 1, 0, 0) == 1.0
  {
    assert [one, two][..0] + [one, two][1..] == [two] && [one, two][..1] + [one, two][2..] == [one];
    OneAdds(two, 2.0);
    OneAdds(one, 1.0);
  }

  lemma {:induction false} OneAdds<L>(u: Update<L>, x: real)
    requires u.delta == [[x]]
    ensures AddsAll([u], u.base, 0, 0) == x
  {
    OneByOne(0.0, x);
    assert [u][..0] == [] && AddsAll<L>([], u.base, 0, 0) == 0.0;
  }

  lemma {:induction false} OneByOne(x: real, y: real)
    ensures Plus([[x]], [[y]]) == [[x + y]] && Entry([[y]], 0, 0) == y
  {
    assert AddVec([x], [y]) == [x + y];
  }

  // The loop of deactivate; a slot already restored is skipped.
  method RestoreAll(m: Model, names: seq<AdapterId>, attached: map<AdapterId, seq<Installation>>)
    requires AllInstalled(m.children, attached) && Elems(names) == attached.Keys
    modifies m
    ensures PutBack(old(m.children), m.children, AllSlots(attached, names))
  {
    ghost var was := m.children;
    var restored: set<Slot> := {};
    for n := 0 to |names|
      invariant restored == AllSlots(attached, names[..n])
      invariant PutBack(was, m.children, restored)
    {
      assert names[n] in Elems(names);
      assert names[..n + 1][..n] == names[..n];
      var insts := attached[names[n]];
      assert Installed(was, insts);
      for k := 0 to |insts|
        invariant restored == AllSlots(attached, names[..n]) + Elems(SlotsOf(insts[..k]))
        invariant PutBack(was, m.children, restored)
      {
        assert SlotsOf(insts[..k + 1]) == SlotsOf(insts[..k]) + [insts[k].slot];
        ElemsSnoc(SlotsOf(insts[..k]), insts[k].slot);
        assert Belongs(was, insts[k]);
        if insts[k].slot !in restored {
          restored := restored + {insts[k].slot};
          m.children := m.children[insts[k].slot := PlainLinear(insts[k].original)];
        }
      }
      assert insts[..|insts|] == insts;
    }
    assert names[..|names|] == names;
  }

  ghost function Weights(bases: set<Parameter>): (ws: map<Parameter, Matrix>)
    reads bases
    ensures ws.Keys == bases && forall l {:trigger ws[l]} :: l in bases ==> ws[l] == l.data
  {
    map l | l in bases :: l.data
  }

  ghost predicate ShapedWeights(ws: map<Parameter, Matrix>) {
    forall l {:trigger ws[l]} :: l in ws ==> Shape(ws[l], l.rows, l.cols)
  }

  ghost predicate AllFolded(before: map<Parameter, Matrix>, after: map<Parameter, Matrix>, us: seq<Update<Parameter>>) {
    after.Keys == before.Keys && forall l {:trigger after[l]} :: l in before ==> after[l] == Folded(before[l], us, l)
  }

  lemma {:induction false} FoldedShaped(before: map<Parameter, Matrix>, after: map<Parameter, Matrix>,
      us: seq<Update<Parameter>>)
    requires AllFolded(before, after, us) && ShapedWeights(before)
    ensures ShapedWeights(after)
  {
    forall l | l in after
      ensures Shape(after[l], l.rows, l.cols)
    {
      FoldedShape(before[l], us, l, l.rows, l.cols);
    }
  }

  lemma {:induction false} OneMoreFolded(before: map<Parameter, Matrix>, after: map<Parameter, Matrix>,
      us: seq<Update<Parameter>>, k: nat)
    requires k < |us| && us[k].base in before && AllFolded(before, after, us[..k])
    ensures AllFolded(before, after[us[k].base := Plus(after[us[k].base], us[k].delta)], us[..k + 1])
  {
    assert us[..k + 1][..k] == us[..k];
  }

  // One installation is folded into its base, and its slot restored.
  method FoldOne(m: Model, inst: Installation, ghost bases: set<Parameter>)
    requires inst.original.weight in bases
    modifies m, inst.original.weight
    ensures m.children == old(m.children)[inst.slot := PlainLinear(inst.original)]
    ensures Weights(bases) ==
      old(Weights(bases))[inst.original.weight := Plus(old(inst.original.weight.data), old(inst.wrapper.Change()))]
  {
    var weight := inst.original.weight;
    weight.data := Plus(weight.data, inst.wrapper.Change());
    m.children := m.children[inst.slot := PlainLinear(inst.original)];
  }

  // The loop of merge, for a set of layers that holds all the bases.
  method FoldAll(m: Model, insts: seq<Installation>, ghost all: set<Parameter>)
    requires AllBelong(m.children, insts) && Bases(insts) <= all
    modifies m, Bases(insts)
    ensures PutBack(old(m.children), m.children, Elems(SlotsOf(insts)))
    ensures AllFolded(old(Weights(all)), Weights(all), old(Updates(insts)))
  {
    ghost var was, us, before := m.children, Updates(insts), Weights(all);
    for k := 0 to |insts|
      invariant PutBack(was, m.children, Elems(SlotsOf(insts[..k])))
      invariant AllFolded(before, Weights(all), us[..k])
    {
      ghost var children, after := m.children, Weights(all);
      assert us[k] == Update(insts[k].original.weight, insts[k].wrapper.Change());
      assert insts[k].original.weight in Bases(insts);
      FoldOne(m, insts[k], all);
      OneMoreFolded(before, after, us, k);
      assert Belongs(was, insts[k]);
      OneMorePutBack(was, children, insts, k);
    }
    assert insts[..|insts|] == insts && us[..|insts|] == us;
  }

  lemma {:induction false} OneMorePutBack(was: map<Slot, Child>, now: map<Slot, Child>, insts: seq<Installation>,
      k: nat)
    requires k < |insts| && Belongs(was, insts[k]) && PutBack(was, now, Elems(SlotsOf(insts[..k])))
    ensures PutBack(was, now[insts[k].slot := PlainLinear(insts[k].original)], Elems(SlotsOf(insts[..k + 1])))
  {
    assert SlotsOf(insts[..k + 1]) == SlotsOf(insts[..k]) + [insts[k].slot];
    ElemsSnoc(SlotsOf(insts[..k]), insts[k].slot);
  }

  lemma {:induction false} AdapterRemoved(names: seq<AdapterId>, attached: map<AdapterId, seq<Installation>>,
      id: AdapterId, was: map<Slot, Child>, now: map<Slot, Child>)
    requires NoDup(names) && Elems(names) == attached.Keys && id in attached && AllInstalled(was, attached)
    requires PutBack(was, now, Elems(SlotsOf(attached[id])))
    ensures NoDup(Filter(names, n => n != id)) && Elems(Filter(names, n => n != id)) == (attached - {id}).Keys
    ensures AllInstalled(now, attached - {id})
  {
    FilterNoDup(names, n => n != id);
    PutBackKeepsBases(was, now, Elems(SlotsOf(attached[id])));
    AllKept(attached, was, now);
    forall other | other in attached - {id}
      ensures Installed(now, (attached - {id})[other])
    {
      assert Installed(now, attached[other]);
    }
  }

  // Each slot of the adapter holds its wrapper.
  ghost predicate AllWired(children: map<Slot, Child>, insts: seq<Installation>) {
    forall k {:trigger insts[k]} :: 0 <= k < |insts| ==>
      insts[k].slot in children && children[insts[k].slot] == Wrapped(insts[k].wrapper)
  }

  lemma {:induction false} WireWires(children: map<Slot, Child>, insts: seq<Installation>)
    requires DistinctSlots(insts)
    ensures AllWired(Wire(children, insts), insts)
  {
    forall k | 0 <= k < |insts|
      ensures insts[k].slot in Wire(children, insts)
      ensures Wire(children, insts)[insts[k].slot] == Wrapped(insts[k].wrapper)
    {
      WiredAt(children, insts, insts[k].slot);
    }
  }

  // Restoring the slots of one adapter leaves another one wired exactly when the two
  // share no slot.
  lemma {:induction false} StaysWiredExactly(was: map<Slot, Child>, now: map<Slot, Child>, wired: seq<Installation>,
      slots: set<Slot>)
    requires AllWired(was, wired) && PutBack(was, now, slots)
    ensures AllWired(now, wired) <==> Elems(SlotsOf(wired)) !! slots
  {
    if s :| s in Elems(SlotsOf(wired)) && s in slots {
      var k :| 0 <= k < |wired| && SlotsOf(wired)[k] == s;
      assert wired[k].slot == s && now[s] != Wrapped(wired[k].wrapper);
    }
    if Elems(SlotsOf(wired)) !! slots {
      forall k | 0 <= k < |wired|
        ensures wired[k].slot in now && now[wired[k].slot] == Wrapped(wired[k].wrapper)
      {
        assert SlotsOf(wired)[k] in Elems(SlotsOf(wired));
      }
    }
  }

  // No other adapter than the one merged is active, or it shares no slot with it.
  predicate LeavesWired(active: Option<AdapterId>, attached: map<AdapterId, seq<Installation>>, id: AdapterId) {
    active == None || active == Some(id) ||
    (active.value in attached && id in attached &&
     Elems(SlotsOf(attached[active.value])) !! Elems(SlotsOf(attached[id])))
  }

  // The slots of the installations hold their bases again, and all base layers of the
  // model have the updates folded in.
  ghost predicate Refolded(m: Model, was: map<Slot, Child>, before: map<Parameter, Matrix>, insts: seq<Installation>,
      us: seq<Update<Parameter>>)
    reads m, BasesOf(m.children)
  {
    && PutBack(was, m.children, Elems(SlotsOf(insts))) && BasesOf(m.children) == BasesOf(was)
    && AllFolded(before, Weights(BasesOf(m.children)), us)
  }

  lemma {:induction false} ShapedNow(ls: set<Parameter>)
    ensures ShapedWeights(Weights(ls)) <==> AllShaped(ls)
  {
    forall l | l in ls
      ensures Shape(Weights(ls)[l], l.rows, l.cols) <==> l.Valid()
    {
    }
  }

  // What a merge does to the model.
  method FoldInto(m: Model, insts: seq<Installation>)
    requires m.Valid() && Installed(m.children, insts)
    modifies m, Bases(insts)
    ensures m.Valid()
    ensures Refolded(m, old(m.children), old(Weights(BasesOf(m.children))), insts, old(Updates(insts)))
  {
    ghost var was, all := m.children, BasesOf(m.children);
    ghost var before, us := Weights(all), Updates(insts);
    BasesInside(was, insts);
    ShapedNow(all);
    FoldAll(m, insts, all);
    PutBackKeepsBases(was, m.children, Elems(SlotsOf(insts)));
    BasesKept(was, m.children);
    FoldedShaped(before, Weights(all), us);
    ShapedNow(all);
  }

  class PEFTAdapter {
    var model: Option<Model>
    var active: Option<AdapterId>
    var names: seq<AdapterId>
    var attached: map<AdapterId, seq<Installation>>

    // The model's attributes, if there is a model.
    function Children(): map<Slot, Child>
      reads this, if model.Some? then {model.value} else {}
    {
      if model.Some? then model.value.children else map[]
    }

    // The bookkeeping, and the shapes of all matrices.
    ghost predicate Valid()
      reads this, if model.Some? then {model.value} else {}
      reads BasesOf(Children()), AllWrappers(attached)
    {
      && NoDup(names) && Elems(names) == attached.Keys
      && (active.Some? ==> active.value in attached)
      && (attached != map[] ==> model.Some?) && (model.Some? ==> model.value.Ordered())
      && AllInstalled(Children(), attached)
      && AllShaped(BasesOf(Children())) && AllFitting(AllWrappers(attached))
    }

    // The wrappers of the active adapter are in place.
    ghost predicate Wired()
      reads this, if model.Some? then {model.value} else {}
    {
      active.Some? && active.value in attached ==> AllWired(Children(), attached[active.value])
    }

    constructor ()
      ensures Valid() && Wired() && model == None && active == None && names == []
    {
      model, active, names, attached := None, None, [], map[];
    }

    // Every attribute that names a target and has a base layer gets a wrapper around
    // that base, with the given settings, that computes what the base computes.
    method Attach(m: Model, id: AdapterId, rank: int, alpha: real, targets: seq<string>)
        returns (r: Result<(), PeftError>)
      requires Valid() && m.Valid()
      modifies this, m
      ensures Valid() && m.Valid()
      ensures r.Ok? <==> id !in old(attached) && (old(model) == None || old(model) == Some(m)) &&
                         rank > 0 && AnyMatch(m.order, old(m.children), targets)
      ensures r.Err? ==>
        r.error == if id in old(attached) then AlreadyAttached
                   else if old(model).Some? && old(model) != Some(m) then OtherModel
                   else if AnyMatch(m.order, old(m.children), targets) then BadRank else NoneMatched
      ensures r.Err? ==>
        attached == old(attached) && names == old(names) && active == old(active) && m.children == old(m.children)
      ensures model == if id in old(attached) || old(model).Some? then old(model) else Some(m)
      ensures r.Ok? ==> id in attached && attached == old(attached)[id := attached[id]]
      ensures r.Ok? ==> names == old(names) + [id] && active == Some(id) && Wired()
      ensures r.Ok? ==> Visited(old(m.children), m.children, attached[id], m.order, |m.order|, targets)
      ensures r.Ok? ==> AllPrepared(attached[id], rank, alpha)
      ensures r.Ok? ==>
        forall k {:trigger attached[id][k]} :: 0 <= k < |attached[id]| ==> fresh(attached[id][k].wrapper)
    {
      if id in attached {
        return Err(AlreadyAttached);
      }
      if model == None {
        model := Some(m);
      } else if model != Some(m) {
        return Err(OtherModel);
      }
      r := AttachTo(m, id, rank, alpha, targets);
    }

    // Attach, once the model is bound.
    method AttachTo(m: Model, id: AdapterId, rank: int, alpha: real, targets: seq<string>)
        returns (r: Result<(), PeftError>)
      requires Valid() && m.Valid() && id !in attached && model == Some(m)
      modifies this`attached, this`names, this`active, m
      ensures Valid() && m.Valid()
      ensures r.Ok? <==> rank > 0 && AnyMatch(m.order, old(m.children), targets)
      ensures r.Err? ==> r.error == if AnyMatch(m.order, old(m.children), targets) then BadRank else NoneMatched
      ensures r.Err? ==>
        attached == old(attached) && names == old(names) && active == old(active) && m.children == old(m.children)
      ensures r.Ok? ==> id in attached && attached == old(attached)[id := attached[id]]
      ensures r.Ok? ==> names == old(names) + [id] && active == Some(id) && Wired()
      ensures r.Ok? ==> Visited(old(m.children), m.children, attached[id], m.order, |m.order|, targets)
      ensures r.Ok? ==> AllPrepared(attached[id], rank, alpha)
      ensures r.Ok? ==>
        forall k {:trigger attached[id][k]} :: 0 <= k < |attached[id]| ==> fresh(attached[id][k].wrapper)
    {
      ghost var was := m.children;
      var wrapped := WrapTargets(m, rank, alpha, targets);
      if wrapped.Err? {
        return Err(wrapped.error);
      }
      Register(id, wrapped.value, was, m, rank, alpha, targets);
      return Ok(());
    }

    // The wrapped targets become an adapter, the active one.
    method Register(id: AdapterId, insts: seq<Installation>, ghost was: map<Slot, Child>, ghost m: Model,
        ghost rank: int, ghost alpha: real, ghost targets: seq<string>)
      requires NoDup(names) && Elems(names) == attached.Keys && id !in attached && model == Some(m) && m.Ordered()
      requires AllInstalled(was, attached)
      requires insts != [] && Visited(was, m.children, insts, m.order, |m.order|, targets)
      requires AllFitting(AllWrappers(attached)) && AllPrepared(insts, rank, alpha) && AllShaped(BasesOf(was))
      modifies this`attached, this`names, this`active
      ensures Valid() && Wired() && active == Some(id)
      ensures attached == old(attached)[id := insts] && names == old(names) + [id]
    {
      AdapterAdded(names, attached, id, insts, was, m.children, m.order, targets);
      MoreWrappers(attached, id, insts, rank, alpha);
      WireWires(was, insts);
      attached := attached[id := insts];
      names := names + [id];
      active := Some(id);
    }

    // Every slot of the adapter holds its wrapper again.
    method Activate(id: AdapterId) returns (r: Result<(), PeftError>)
      requires Valid()
      modifies this`active, if model.Some? then {model.value} else {}
      ensures Valid() && (r.Ok? <==> id in attached)
      ensures r.Err? ==> r.error == NotAttached && active == old(active)
      ensures r.Err? && model.Some? ==> model.value.children == old(model.value.children)
      ensures r.Ok? ==> active == Some(id) && Wired()
      ensures r.Ok? ==> model.value.children == Wire(old(model.value.children), attached[id])
    {
      if id !in attached {
        return Err(NotAttached);
      }
      var insts := attached[id];
      ghost var was := model.value.children;
      assert Installed(was, insts);
      WireAll(model.value, insts);
      active := Some(id);
      WireKeepsBases(was, insts);
      AllKept(attached, was, model.value.children);
      BasesKept(was, model.value.children);
      WireWires(was, insts);
      return Ok(());
    }

    // Every slot that had an installation holds its base again.
    method Deactivate()
      requires Valid()
      modifies this`active, if model.Some? then {model.value} else {}
      ensures Valid() && active == None
      ensures model.Some? ==> PutBack(old(model.value.children), model.value.children, AllSlots(attached, names))
    {
      if model.Some? {
        ghost var was := model.value.children;
        RestoreAll(model.value, names, attached);
        PutBackKeepsBases(was, model.value.children, AllSlots(attached, names));
        AllKept(attached, was, model.value.children);
        BasesKept(was, model.value.children);
      }
      active := None;
    }

    // The adapter's updates are folded into the bases behind its slots, one after the
    // other, and the slots hold their bases again.  The active adapter stays wired
    // unless it is another one that shares a slot with this one.
    method Merge(id: AdapterId) returns (r: Result<Model, PeftError>)
      requires Valid()
      modifies this`attached, this`names, this`active, if model.Some? then {model.value} else {}
      modifies if id in attached then Bases(attached[id]) else {}
      ensures Valid() && (r.Ok? <==> id in old(attached))
      ensures r.Err? ==> r.error == if old(model) == None then NoModel else NotAttached
      ensures r.Err? ==> unchanged(this) && (model.Some? ==> unchanged(model.value))
      ensures r.Ok? ==> model == Some(r.value) && Merged(old(names), old(attached), old(active), id)
      ensures r.Ok? ==>
        Refolded(r.value, old(r.value.children), old(Weights(BasesOf(r.value.children))), old(attached[id]),
          old(Updates(attached[id])))
      ensures r.Ok? && old(Wired()) ==> (Wired() <==> LeavesWired(old(active), old(attached), id))
    {
      if model == None {
        return Err(NoModel);
      }
      if id !in attached {
        return Err(NotAttached);
      }
      var m, insts := model.value, attached[id];
      ghost var was, rival := m.children, if active.Some? then attached[active.value] else [];
      MergeAttached(id, m, insts, was, Weights(BasesOf(was)), Updates(insts));
      if AllWired(was, rival) {
        StaysWiredExactly(was, m.children, rival, Elems(SlotsOf(insts)));
      }
      return Ok(model.value);
    }

    // Merge, for an adapter that is attached.
    method MergeAttached(id: AdapterId, m: Model, insts: seq<Installation>, ghost was: map<Slot, Child>,
        ghost before: map<Parameter, Matrix>, ghost us: seq<Update<Parameter>>)
      requires Valid() && id in attached && model == Some(m) && insts == attached[id]
      requires was == m.children && before == Weights(BasesOf(was)) && us == Updates(insts)
      modifies this`attached, this`names, this`active, m, Bases(insts)
      ensures Valid() && Merged(old(names), old(attached), old(active), id)
      ensures Refolded(m, was, before, insts, us)
    {
      FoldInto(m, insts);
      Detach(id, m, was);
    }

    // What merging an adapter leaves of the bookkeeping.
    ghost predicate Merged(names0: seq<AdapterId>, attached0: map<AdapterId, seq<Installation>>,
        active0: Option<AdapterId>, id: AdapterId)
      reads this
    {
      && names == Filter(names0, n => n != id) && attached == attached0 - {id}
      && active == if active0 == Some(id) then None else active0
    }

    // The adapter is no longer attached.
    method Detach(id: AdapterId, ghost m: Model, ghost was: map<Slot, Child>)
      requires NoDup(names) && Elems(names) == attached.Keys && (active.Some? ==> active.value in attached)
      requires model == Some(m) && m.Valid() && id in attached && AllInstalled(was, attached)
      requires PutBack(was, m.children, Elems(SlotsOf(attached[id]))) && AllFitting(AllWrappers(attached))
      modifies this`attached, this`names, this`active
      ensures Valid() && Merged(old(names), old(attached), old(active), id)
    {
      AdapterRemoved(names, attached, id, was, m.children);
      FewerWrappers(attached, id);
      attached := attached - {id};
      names := Filter(names, n => n != id);
      if active == Some(id) {
        active := None;
      }
    }
  }

  // The loop of activate.
  method WireAll(m: Model, insts: seq<Installation>)
    modifies m
    ensures m.children == Wire(old(m.children), insts)
  {
    for k := 0 to |insts|
      invariant m.children == Wire(old(m.children), insts[..k])
    {
      assert insts[..k + 1][..k] == insts[..k];
      m.children := m.children[insts[k].slot := Wrapped(insts[k].wrapper)];
    }
    assert insts[..|insts|] == insts;
  }

  function AllWrappers(attached: map<AdapterId, seq<Installation>>): set<LoRALinear> {
    set id, i | id in attached && i in attached[id] :: i.wrapper
  }

  lemma {:induction false} MoreWrappers(attached: map<AdapterId, seq<Installation>>, id: AdapterId,
      insts: seq<Installation>, rank: int, alpha: real)
    requires AllFitting(AllWrappers(attached)) && id !in attached && AllPrepared(insts, rank, alpha)
    ensures AllFitting(AllWrappers(attached[id := insts]))
  {
    var more := attached[id := insts];
    forall w | w in AllWrappers(more)
      ensures w.Valid()
    {
      var o: AdapterId, i: Installation :| o in more && i in more[o] && i.wrapper == w;
      if o != id {
        assert w in AllWrappers(attached);
      } else {
        var k :| 0 <= k < |insts| && insts[k] == i;
        assert Prepared(insts[k].wrapper, rank, alpha);
      }
    }
  }

  lemma {:induction false} FewerWrappers(attached: map<AdapterId, seq<Installation>>, id: AdapterId)
    ensures AllWrappers(attached - {id}) <= AllWrappers(attached)
  {
  }

  lemma {:induction false} BasesInside(children: map<Slot, Child>, insts: seq<Installation>)
    requires AllBelong(children, insts)
    ensures Bases(insts) <= BasesOf(children)
  {
    forall l | l in Bases(insts)
      ensures l in BasesOf(children)
    {
      var i :| i in insts && i.original.weight == l;
      var k :| 0 <= k < |insts| && insts[k] == i;
      assert Belongs(children, insts[k]);
    }
  }

  // Every adapter's installations are in place, one to a slot.
  ghost predicate AllInstalled(children: map<Slot, Child>, attached: map<AdapterId, seq<Installation>>) {
    forall id {:trigger attached[id]} :: id in attached ==> Installed(children, attached[id])
  }

  ghost predicate Installed(children: map<Slot, Child>, insts: seq<Installation>) {
    insts != [] && DistinctSlots(insts) && AllBelong(children, insts)
  }

  lemma {:induction false} AllKept(attached: map<AdapterId, seq<Installation>>, c: map<Slot, Child>,
      d: map<Slot, Child>)
    requires SameBases(c, d) && AllInstalled(c, attached)
    ensures AllInstalled(d, attached)
  {
    forall id | id in attached
      ensures Installed(d, attached[id])
    {
      assert Installed(c, attached[id]);
      BelongsKept(c, d, attached[id]);
    }
  }

  lemma {:induction false} AdapterAdded(names: seq<AdapterId>, attached: map<AdapterId, seq<Installation>>,
      id: AdapterId, insts: seq<Installation>, was: map<Slot, Child>, now: map<Slot, Child>, order: seq<Slot>,
      targets: seq<string>)
    requires NoDup(names) && Elems(names) == attached.Keys && id !in attached
    requires AllInstalled(was, attached)
    requires insts != [] && Visited(was, now, insts, order, |order|, targets)
    ensures NoDup(names + [id]) && Elems(names + [id]) == attached[id := insts].Keys
    ensures AllInstalled(now, attached[id := insts]) && BasesOf(now) == BasesOf(was)
  {
    ElemsSnoc(names, id);
    NoDupSnoc(names, id);
    assert id !in Elems(names);
    VisitedAll(was, now, insts, order, targets);
    BasesKept(was, now);
    BelongsKept(was, now, insts);
    AllKept(attached, was, now);
  }

  function Wrappers(insts: seq<Installation>): set<LoRALinear> {
    set i | i in insts :: i.wrapper
  }

  ghost predicate AllFitting(ws: set<LoRALinear>)
    reads ws
  {
    forall w {:trigger w in ws} :: w in ws ==> w.Valid()
  }

  ghost predicate AllPrepared(insts: seq<Installation>, rank: int, alpha: real)
    reads Wrappers(insts), set i | i in insts :: i.wrapper.original.weight
  {
    forall k {:trigger insts[k]} :: 0 <= k < |insts| ==> Prepared(insts[k].wrapper, rank, alpha)
  }

  // The wrapper has the given settings and computes what its base computes.
  ghost predicate Prepared(w: LoRALinear, rank: int, alpha: real)
    reads w, w.original.weight
  {
    rank > 0 && w.rank == rank && Mul(rank as real, w.scaling) == alpha && w.Valid() && Unchanged(w)
  }

  // The wrapper computes what its base computes.
  ghost predicate Unchanged(w: LoRALinear)
    reads w, w.original.weight
  {
    forall x: Vec {:trigger w.Forward(x)} :: w.Forward(x) == w.original.Forward(x)
  }

  // The next slot was not touched so far; it is skipped or gets one more wrapper.
  lemma {:induction false} NextVisited(was: map<Slot, Child>, now: map<Slot, Child>, insts: seq<Installation>,
      order: seq<Slot>, n: nat, targets: seq<string>)
    requires NoDup(order) && Elems(order) == was.Keys && n < |order| && Visited(was, now, insts, order, n, targets)
    ensures order[n] in was && order[n] in now && now[order[n]] == was[order[n]]
    ensures !Matches(now, targets, order[n]) ==> Visited(was, now, insts, order, n + 1, targets)
    ensures Matches(now, targets, order[n]) ==> !Covers(insts, order[n])
  {
    var s, wanted := order[n], (s: Slot) => Matches(was, targets, s);
    NoDupCut(order, 0, n);
    assert order[0..n] == order[..n];
    assert s in Elems(order);
    if Covers(insts, s) {
      var k :| 0 <= k < |insts| && insts[k].slot == s;
      assert SlotsOf(insts)[k] in Filter(order[..n], wanted);
    }
    WiredAt(was, insts, s);
    assert order[..n + 1] == order[..n] + [s];
    FilterSnoc(order[..n], s, wanted);
  }

  lemma {:induction false} OneVisited(was: map<Slot, Child>, now: map<Slot, Child>, insts: seq<Installation>,
      inst: Installation, order: seq<Slot>, n: nat, targets: seq<string>)
    requires n < |order| && Visited(was, now, insts, order, n, targets) && !Covers(insts, order[n])
    requires inst.slot == order[n] && Matches(was, targets, order[n]) && Belongs(was, inst)
    ensures Visited(was, now[order[n] := Wrapped(inst.wrapper)], insts + [inst], order, n + 1, targets)
  {
    assert order[..n + 1] == order[..n] + [order[n]];
    FilterSnoc(order[..n], order[n], s => Matches(was, targets, s));
    OneMore(was, insts, inst);
  }

  lemma {:induction false} OneMore(was: map<Slot, Child>, insts: seq<Installation>, inst: Installation)
    requires AllBelong(was, insts) && DistinctSlots(insts) && Belongs(was, inst) && !Covers(insts, inst.slot)
    ensures AllBelong(was, insts + [inst]) && DistinctSlots(insts + [inst])
    ensures Wire(was, insts + [inst]) == Wire(was, insts)[inst.slot := Wrapped(inst.wrapper)]
    ensures SlotsOf(insts + [inst]) == SlotsOf(insts) + [inst.slot]
  {
    var more := insts + [inst];
    assert more[..|more| - 1] == insts;
    forall k | 0 <= k < |more|
      ensures Belongs(was, more[k])
    {
      assert k < |insts| ==> more[k] == insts[k];
    }
    assert SlotsOf(more) == SlotsOf(insts) + [inst.slot];
    NoDupSnoc(SlotsOf(insts), inst.slot);
  }

  lemma {:induction false} VisitedAll(was: map<Slot, Child>, now: map<Slot, Child>, insts: seq<Installation>,
      order: seq<Slot>, targets: seq<string>)
    requires Visited(was, now, insts, order, |order|, targets)
    ensures SameBases(was, now) && (insts != [] <==> AnyMatch(order, was, targets))
  {
    var wanted := (s: Slot) => Matches(was, targets, s);
    assert order[..|order|] == order;
    WireKeepsBases(was, insts);
    if AnyMatch(order, was, targets) {
      var s :| s in order && Matches(was, targets, s);
      assert wanted(s) && s in Filter(order, wanted);
    }
    if insts != [] {
      var s := SlotsOf(insts)[0];
      assert s in Filter(order, wanted) && s in order && wanted(s);
    }
  }
}
