// Sequences of calls on a PEFT adapter (src/cadgenesis/adapters/peft.py): merging
// several adapters, and attaching, training and merging one.
module AdapterRuns {
  import opened Results
  import opened Seqs
  import opened PythonStrings
  import opened Matrices
  import opened LowRank
  import opened Adapters

  // What merging each attached adapter would fold.
  ghost function Table(attached: map<AdapterId, seq<Installation>>): map<AdapterId, seq<Update<Parameter>>>
    reads AllWrappers(attached)
  {
    map id | id in attached :: Updates(attached[id])
  }

  function Pick<A(==), B>(table: map<A, B>, ids: seq<A>): seq<B> {
    if ids == [] then []
    else
      var n := |ids| - 1;
      Pick(table, ids[..n]) + if ids[n] in table then [table[ids[n]]] else []
  }

  lemma {:induction false} PickJoin<A, B>(table: map<A, B>, s: seq<A>, t: seq<A>)
    ensures Pick(table, s + t) == Pick(table, s) + Pick(table, t)
  {
    if t == [] {
      assert s + t == s;
    } else {
      assert (s + t)[..|s + t| - 1] == s + t[..|t| - 1];
      PickJoin(table, s, t[..|t| - 1]);
    }
  }

  lemma {:induction false} PickPermutes<A, B>(table: map<A, B>, s: seq<A>, t: seq<A>)
    requires multiset(s) == multiset(t)
    ensures multiset(Pick(table, s)) == multiset(Pick(table, t))
  {
    if s == [] {
      assert |t| == |multiset(t)|;
    } else {
      var n := |s| - 1;
      var p, front, back := TakeOut(s, t);
      PickPermutes(table, s[..n], front + back);
      PickJoin(table, front, back);
      PickJoin(table, front + [s[n]], back);
      PickJoin(table, front, [s[n]]);
      assert [s[n]][..0] == [];
    }
  }

  // All weights after the adapters were folded in one after the other.
  ghost predicate AllFoldedInTurn(before: map<Parameter, Matrix>, after: map<Parameter, Matrix>,
      adapters: seq<seq<Update<Parameter>>>)
  {
    after.Keys == before.Keys && forall l {:trigger after[l]} ::
      l in before ==> after[l] == FoldedInTurn(before[l], adapters, l)
  }

  lemma {:induction false} OneMoreAdapter(before: map<Parameter, Matrix>, now: map<Parameter, Matrix>,
      after: map<Parameter, Matrix>, adapters: seq<seq<Update<Parameter>>>, us: seq<Update<Parameter>>)
    requires AllFoldedInTurn(before, now, adapters) && AllFolded(now, after, us)
    ensures AllFoldedInTurn(before, after, adapters + [us])
  {
    assert (adapters + [us])[..|adapters|] == adapters;
  }

  // Merging the same adapters by calls in another order leaves the same weights.
  lemma {:induction false} MergeCallsCommute(before: map<Parameter, Matrix>, after: map<Parameter, Matrix>,
      after': map<Parameter, Matrix>, table: map<AdapterId, seq<Update<Parameter>>>, ids: seq<AdapterId>,
      ids': seq<AdapterId>)
    requires ShapedWeights(before) && multiset(ids) == multiset(ids')
    requires AllFoldedInTurn(before, after, Pick(table, ids)) && AllFoldedInTurn(before, after', Pick(table, ids'))
    ensures after == after'
  {
    PickPermutes(table, ids, ids');
    forall l | l in before
      ensures after[l] == after'[l]
    {
      MergeOrderIrrelevant(before[l], Pick(table, ids), Pick(table, ids'), l, l.rows, l.cols);
    }
  }

  // One call, for an adapter whose updates are known.
  method MergeNext(p: PEFTAdapter, m: Model, id: AdapterId, ghost us: seq<Update<Parameter>>, ghost all: set<Parameter>)
    requires p.Valid() && p.model == Some(m) && id in p.attached && us == Updates(p.attached[id])
    requires all == BasesOf(m.children)
    modifies p, m, all
    ensures p.Valid() && p.model == Some(m) && p.attached == old(p.attached) - {id} && BasesOf(m.children) == all
    ensures AllFolded(old(Weights(all)), Weights(all), us)
    ensures PutBack(old(m.children), m.children, Elems(SlotsOf(old(p.attached[id]))))
  {
    InsideModel(p, m, id);
    var r := p.Merge(id);
  }

  // One more call, after the merges so far.
  method MergeOneMore(p: PEFTAdapter, m: Model, id: AdapterId, ghost us: seq<Update<Parameter>>,
      ghost all: set<Parameter>, ghost before: map<Parameter, Matrix>, ghost adapters: seq<seq<Update<Parameter>>>)
    requires p.Valid() && p.model == Some(m) && id in p.attached && us == Updates(p.attached[id])
    requires all == BasesOf(m.children)
    requires AllFoldedInTurn(before, Weights(all), adapters)
    modifies p, m, all
    ensures p.Valid() && p.model == Some(m) && p.attached == old(p.attached) - {id} && BasesOf(m.children) == all
    ensures AllFoldedInTurn(before, Weights(all), adapters + [us])
  {
    ghost var now := Weights(all);
    MergeNext(p, m, id, us, all);
    OneMoreAdapter(before, now, Weights(all), adapters, us);
  }

  // A call of merge for each of the given adapters, one after the other.
  method MergeEach(p: PEFTAdapter, m: Model, ids: seq<AdapterId>, ghost all: set<Parameter>,
      ghost table: map<AdapterId, seq<Update<Parameter>>>, ghost before: map<Parameter, Matrix>)
    requires p.Valid() && p.model == Some(m) && NoDup(ids) && Elems(ids) <= p.attached.Keys
    requires all == BasesOf(m.children) && table == Table(p.attached) && before == Weights(all)
    modifies p, m, all
    ensures p.Valid() && p.model == Some(m) && p.attached == old(p.attached) - Elems(ids) && BasesOf(m.children) == all
    ensures AllFoldedInTurn(before, Weights(all), Pick(table, ids))
    decreases |ids|
  {
    if ids != [] {
      var n := |ids| - 1;
      LastId(ids, p.attached);
      MergeEach(p, m, ids[..n], all, table, before);
      MergeOneMore(p, m, ids[n], table[ids[n]], all, before, Pick(table, ids[..n]));
    }
  }

  lemma {:induction false} LastId<A, B>(ids: seq<A>, table: map<A, B>)
    requires NoDup(ids) && ids != [] && Elems(ids) <= table.Keys
    ensures var front, id := ids[..|ids| - 1], ids[|ids| - 1];
      && NoDup(front) && Elems(front) <= table.Keys && id in table && id in table - Elems(front)
      && table - Elems(front) - {id} == table - Elems(ids)
  {
    PopElems(ids);
    assert ids[|ids| - 1] in Elems(ids) && ids[|ids| - 1] !in Elems(ids[..|ids| - 1]);
    assert Elems(ids) == Elems(ids[..|ids| - 1]) + {ids[|ids| - 1]};
  }

  lemma {:induction false} InsideModel(p: PEFTAdapter, m: Model, id: AdapterId)
    requires p.Valid() && p.model == Some(m) && id in p.attached
    ensures Bases(p.attached[id]) <= BasesOf(m.children)
  {
    assert Installed(m.children, p.attached[id]);
    BasesInside(m.children, p.attached[id]);
  }

  // ------------------------------------------------------------------
  // One adapter from its attachment to its merge

  // Training leaves the wrappers with any matrices of their shapes.
  method TrainAll(p: PEFTAdapter, m: Model, id: AdapterId)
    requires p.Valid() && p.model == Some(m) && id in p.attached
    modifies Wrappers(p.attached[id])
    ensures p.Valid()
  {
    var insts := p.attached[id];
    for k := 0 to |insts|
      invariant p.Valid()
    {
      var w := insts[k].wrapper;
      assert w in AllWrappers(p.attached);
      assert Shape(Zeros(w.rank, w.original.InFeatures()), w.rank, w.original.InFeatures());
      assert Shape(Zeros(w.original.OutFeatures(), w.rank), w.original.OutFeatures(), w.rank);
      var a: Matrix :| Shape(a, w.rank, w.original.InFeatures());
      var b: Matrix :| Shape(b, w.original.OutFeatures(), w.rank);
      w.Train(a, b);
    }
  }

  // The adapter can be attached.
  ghost predicate Attachable(p: PEFTAdapter, m: Model, id: AdapterId, rank: int, targets: seq<string>)
    reads p, m
  {
    && id !in p.attached && (p.model == None || p.model == Some(m))
    && rank > 0 && AnyMatch(m.order, m.children, targets)
  }

  // The installations are those of the matching slots, around the bases behind them.
  ghost predicate OnTargets(insts: seq<Installation>, was: map<Slot, Child>, order: seq<Slot>, targets: seq<string>) {
    SlotsOf(insts) == Filter(order, s => Matches(was, targets, s)) && AllBelong(was, insts)
  }

  // After attaching, training and merging, every base computes what its trained
  // wrapper computed around the weights before, exactly when the other updates folded
  // into the same base cancel out.
  method AttachTrainMerge(p: PEFTAdapter, m: Model, id: AdapterId, rank: int, alpha: real, targets: seq<string>)
      returns (ok: bool, ghost insts: seq<Installation>, ghost us: seq<Update<Parameter>>)
    requires p.Valid() && m.Valid()
    modifies p, m, BasesOf(m.children)
    ensures p.Valid()
    ensures ok <==> old(Attachable(p, m, id, rank, targets))
    ensures ok ==> BasesOf(m.children) == old(BasesOf(m.children))
    ensures ok ==> OnTargets(insts, old(m.children), m.order, targets) && Restored(m.children, insts)
    ensures ok ==> MergedExactly(insts, old(Weights(BasesOf(m.children))), Weights(BasesOf(m.children)), us)
  {
    ghost var all := BasesOf(m.children);
    ghost var before := Weights(all);
    ok, insts := AttachFirst(p, m, id, rank, alpha, targets);
    us := [];
    if ok {
      us := TrainMerge(p, m, id, insts, all, before);
    }
  }

  method AttachFirst(p: PEFTAdapter, m: Model, id: AdapterId, rank: int, alpha: real, targets: seq<string>)
      returns (ok: bool, ghost insts: seq<Installation>)
    requires p.Valid() && m.Valid()
    modifies p, m
    ensures p.Valid() && m.Valid() && BasesOf(m.children) == old(BasesOf(m.children))
    ensures ok <==> old(Attachable(p, m, id, rank, targets))
    ensures ok ==> p.model == Some(m) && id in p.attached && insts == p.attached[id]
    ensures ok ==> forall k {:trigger insts[k]} :: 0 <= k < |insts| ==> fresh(insts[k].wrapper)
    ensures ok ==> OnTargets(insts, old(m.children), m.order, targets)
  {
    ghost var was := m.children;
    insts := [];
    var attached := p.Attach(m, id, rank, alpha, targets);
    ok := attached.Ok?;
    if ok {
      insts := p.attached[id];
      WrappedTargets(was, m.children, insts, m.order, targets);
    }
  }

  lemma {:induction false} WrappedTargets(was: map<Slot, Child>, now: map<Slot, Child>, insts: seq<Installation>,
      order: seq<Slot>, targets: seq<string>)
    requires Visited(was, now, insts, order, |order|, targets)
    ensures BasesOf(now) == BasesOf(was) && OnTargets(insts, was, order, targets)
  {
    VisitedAll(was, now, insts, order, targets);
    BasesKept(was, now);
    assert order[..|order|] == order;
  }

  method TrainMerge(p: PEFTAdapter, m: Model, id: AdapterId, ghost insts: seq<Installation>, ghost all: set<Parameter>,
      ghost before: map<Parameter, Matrix>) returns (ghost us: seq<Update<Parameter>>)
    requires p.Valid() && p.model == Some(m) && id in p.attached && insts == p.attached[id]
    requires all == BasesOf(m.children) && before == Weights(all)
    modifies p, m, all, Wrappers(insts)
    ensures p.Valid() && BasesOf(m.children) == all && Restored(m.children, insts)
    ensures MergedExactly(insts, before, Weights(all), us)
  {
    TrainAll(p, m, id);
    us := MergeKnown(p, m, id, insts, all, before);
  }

  method MergeKnown(p: PEFTAdapter, m: Model, id: AdapterId, ghost insts: seq<Installation>, ghost all: set<Parameter>,
      ghost before: map<Parameter, Matrix>) returns (ghost us: seq<Update<Parameter>>)
    requires p.Valid() && p.model == Some(m) && id in p.attached && insts == p.attached[id]
    requires all == BasesOf(m.children) && before == Weights(all)
    modifies p, m, all
    ensures p.Valid() && BasesOf(m.children) == all && Restored(m.children, insts)
    ensures MergedExactly(insts, before, Weights(all), us)
  {
    us := Updates(insts);
    ReadyToMerge(p, m, id, insts);
    ghost var was := m.children;
    assert Installed(was, insts);
    MergeNext(p, m, id, us, all);
    SlotsRestored(was, m.children, insts);
    KeptAll(insts, before, Weights(all), us);
  }

  // The slots hold the bases, without the wrappers.
  ghost predicate Restored(children: map<Slot, Child>, insts: seq<Installation>) {
    forall k {:trigger insts[k]} :: 0 <= k < |insts| ==>
      insts[k].slot in children && children[insts[k].slot] == PlainLinear(insts[k].original)
  }

  lemma {:induction false} SlotsRestored(was: map<Slot, Child>, now: map<Slot, Child>, insts: seq<Installation>)
    requires AllBelong(was, insts) && PutBack(was, now, Elems(SlotsOf(insts)))
    ensures Restored(now, insts)
  {
    forall k | 0 <= k < |insts|
      ensures insts[k].slot in now && now[insts[k].slot] == PlainLinear(insts[k].original)
    {
      assert Belongs(was, insts[k]) && SlotsOf(insts)[k] in Elems(SlotsOf(insts));
    }
  }

  // In particular an adapter whose layers have a weight each keeps all their functions.
  lemma {:induction false} OwnWeightsKept(insts: seq<Installation>, before: map<Parameter, Matrix>,
      after: map<Parameter, Matrix>, us: seq<Update<Parameter>>)
    requires MergedExactly(insts, before, after, us)
    requires forall j, k {:trigger insts[j], insts[k]} :: 0 <= j < |insts| && 0 <= k < |insts| && j != k ==>
      insts[j].original.weight != insts[k].original.weight
    ensures forall k {:trigger insts[k]} :: 0 <= k < |insts| ==>
      insts[k].original.weight in before && insts[k].original.weight in after && MergedLike(before, after, insts[k])
  {
    forall k | 0 <= k < |insts|
      ensures insts[k].original.weight in before && insts[k].original.weight in after
      ensures MergedLike(before, after, insts[k])
    {
      var base := insts[k].original;
      assert KeptExactly(insts[k], before, after, us, k) && UpdateOf(insts[k], us, k);
      forall j | 0 <= j < |us| && j != k
        ensures us[j].base != us[k].base
      {
        assert UpdateOf(insts[j], us, j);
      }
      SoleWrapperCancels(us, k, base.OutFeatures(), base.InFeatures());
    }
  }

  ghost predicate AllKeptExactly(insts: seq<Installation>, before: map<Parameter, Matrix>,
      after: map<Parameter, Matrix>, us: seq<Update<Parameter>>)
    reads Wrappers(insts)
  {
    && |us| == |insts|
    && forall k {:trigger insts[k]} :: 0 <= k < |insts| ==>
      insts[k].original.weight in before && insts[k].original.weight in after
        && KeptExactly(insts[k], before, after, us, k)
  }

  ghost predicate MergedExactly(insts: seq<Installation>, before: map<Parameter, Matrix>, after: map<Parameter, Matrix>,
      us: seq<Update<Parameter>>)
    reads Wrappers(insts)
  {
    AllUpdates(insts, us, before.Keys) && AllFolded(before, after, us) && AllKeptExactly(insts, before, after, us)
  }

  // Each update is that of its installation, whose base is in the model.
  ghost predicate AllUpdates(insts: seq<Installation>, us: seq<Update<Parameter>>, all: set<Parameter>)
    reads Wrappers(insts)
  {
    |us| == |insts| && forall k {:trigger insts[k]} ::
      0 <= k < |insts| ==> UpdateOf(insts[k], us, k) && insts[k].original.weight in all
  }

  lemma {:induction false} ReadyToMerge(p: PEFTAdapter, m: Model, id: AdapterId, insts: seq<Installation>)
    requires p.Valid() && p.model == Some(m) && id in p.attached && insts == p.attached[id]
    ensures AllUpdates(insts, Updates(insts), BasesOf(m.children)) && ShapedWeights(Weights(BasesOf(m.children)))
  {
    assert Installed(m.children, insts);
    BasesInside(m.children, insts);
    ShapedNow(BasesOf(m.children));
    forall k | 0 <= k < |insts|
      ensures UpdateOf(insts[k], Updates(insts), k) && insts[k].original.weight in BasesOf(m.children)
    {
      assert Belongs(m.children, insts[k]);
      assert insts[k].wrapper in AllWrappers(p.attached) && insts[k].original.weight in Bases(insts);
    }
  }

  lemma {:induction false} KeptAll(insts: seq<Installation>, before: map<Parameter, Matrix>,
      after: map<Parameter, Matrix>, us: seq<Update<Parameter>>)
    requires AllUpdates(insts, us, before.Keys) && ShapedWeights(before) && AllFolded(before, after, us)
    ensures AllKeptExactly(insts, before, after, us)
  {
    forall k | 0 <= k < |insts|
      ensures insts[k].original.weight in before && insts[k].original.weight in after
        && KeptExactly(insts[k], before, after, us, k)
    {
      MergeKeepsFunctionExactly(before, after, insts[k], us, k);
    }
  }

  // ------------------------------------------------------------------
  // Two layers that share their weight

  const ONE: Matrix := [[1.0]]

  lemma {:induction false} OneByOneDelta(b: real)
    ensures Delta(ONE, [[b]], 1.0, 1) == [[b]] && Fits(ONE, [[b]], 1, 1, 1)
  {
    var p := Product([[b]], ONE, 1);
    var f := (k: int) => Mul(At([[b]][0], k), Entry(ONE, k, 0));
    MulUnits(b);
    assert f(0) == b && Sum(0, f) == 0.0 && Sum(1, f) == b;
    assert p[0][0] == Sum(1, f);
    assert |p[0]| == 1 && p[0] == [b];
    assert p == [[b]];
    assert ScaleVec([b], 1.0) == [b];
  }

  const FIRST := Slot(0, "proj")
  const SECOND := Slot(1, "proj")

  // Two layers around one weight under the parents 0 and 1.
  method SharedModel() returns (m: Model, weight: Parameter)
    ensures fresh(m) && fresh(weight) && weight.data == [[0.0]] && weight.rows == weight.cols == 1
    ensures m.Valid() && m.order == [FIRST, SECOND] && BasesOf(m.children) == {weight}
    ensures Both(m.children, weight)
  {
    weight := new Parameter([[0.0]], 1);
    var first := new Linear(weight, None);
    var second := new Linear(weight, None);
    m := new Model([FIRST, SECOND], map[FIRST := PlainLinear(first), SECOND := PlainLinear(second)]);
    assert NoDup(m.order) && Elems(m.order) == {FIRST, SECOND};
  }

  ghost predicate Both(children: map<Slot, Child>, weight: Parameter) {
    && children.Keys == {FIRST, SECOND}
    && children[FIRST].PlainLinear? && children[SECOND].PlainLinear?
    && children[FIRST].linear != children[SECOND].linear
    && children[FIRST].linear.weight == children[SECOND].linear.weight == weight
  }

  // An adapter on both.
  method AttachShared(id: AdapterId) returns (p: PEFTAdapter, m: Model, weight: Parameter)
    ensures fresh(p) && fresh(m) && fresh(weight) && weight.data == [[0.0]]
    ensures p.Valid() && p.model == Some(m) && id in p.attached && BasesOf(m.children) == {weight}
    ensures Pair(p.attached[id], weight)
    ensures fresh(p.attached[id][0].wrapper) && fresh(p.attached[id][1].wrapper)
  {
    m, weight := SharedModel();
    p := AttachBoth(m, id, weight);
  }

  method AttachBoth(m: Model, id: AdapterId, ghost weight: Parameter) returns (p: PEFTAdapter)
    requires m.Valid() && m.order == [FIRST, SECOND] && Both(m.children, weight) && weight.rows == weight.cols == 1
    modifies m
    ensures fresh(p) && p.Valid() && p.model == Some(m) && id in p.attached
    ensures Pair(p.attached[id], weight) && BasesOf(m.children) == old(BasesOf(m.children))
    ensures forall i :: i in p.attached[id] ==> fresh(i.wrapper)
  {
    p := new PEFTAdapter();
    ghost var was := m.children;
    BothMatch(was, FIRST, SECOND);
    var r := p.Attach(m, id, 1, 1.0, ["proj"]);
    BothWrapped(was, m.children, p.attached[id], ["proj"], FIRST, SECOND);
    BothPaired(was, p.attached[id], weight);
  }

  ghost predicate Pair(insts: seq<Installation>, weight: Parameter) {
    && |insts| == 2 && weight.rows == weight.cols == 1
    && insts[0].wrapper.original == insts[0].original && insts[1].wrapper.original == insts[1].original
    && insts[0].original.weight == insts[1].original.weight == weight
    && insts[0].original != insts[1].original && insts[0].wrapper != insts[1].wrapper
    && insts[0].wrapper.rank == insts[1].wrapper.rank == 1
    && insts[0].wrapper.scaling == insts[1].wrapper.scaling == 1.0
  }

  lemma {:induction false} BothMatch(was: map<Slot, Child>, s: Slot, t: Slot)
    requires s.attr == "proj" && t.attr == "proj" && was.Keys == {s, t}
    requires ResolveBase(was[s]).Some? && ResolveBase(was[t]).Some?
    ensures Matches(was, ["proj"], s) && Matches(was, ["proj"], t) && AnyMatch([s, t], was, ["proj"])
  {
    assert "proj"[0..] == "proj" && "proj"[0..][..4] == "proj";
    assert "proj" in ["proj"] && Contains("proj", "proj");
    assert s in [s, t];
  }

  lemma {:induction false} FilterBoth<T(!new)>(s: T, t: T, p: T -> bool)
    requires p(s) && p(t)
    ensures Filter([s, t], p) == [s, t]
  {
    assert [s, t][1..] == [t] && [t][1..] == [];
    assert Filter([t], p) == [t];
  }

  lemma {:induction false} BothWrapped(was: map<Slot, Child>, now: map<Slot, Child>, insts: seq<Installation>,
      targets: seq<string>, s: Slot, t: Slot)
    requires Visited(was, now, insts, [s, t], 2, targets) && Matches(was, targets, s) && Matches(was, targets, t)
    ensures SlotsOf(insts) == [s, t] && AllBelong(was, insts) && BasesOf(now) == BasesOf(was)
  {
    assert [s, t][..2] == [s, t];
    FilterBoth(s, t, s => Matches(was, targets, s));
    VisitedAll(was, now, insts, [s, t], targets);
    BasesKept(was, now);
  }

  lemma {:induction false} BothPaired(was: map<Slot, Child>, insts: seq<Installation>, weight: Parameter)
    requires Both(was, weight) && SlotsOf(insts) == [FIRST, SECOND] && AllBelong(was, insts)
    ensures |insts| == 2 && insts[0].original.weight == insts[1].original.weight == weight
    ensures insts[0].wrapper.original == insts[0].original != insts[1].original == insts[1].wrapper.original
  {
    assert |insts| == |SlotsOf(insts)| && insts[0].slot == SlotsOf(insts)[0] && insts[1].slot == SlotsOf(insts)[1];
    assert Belongs(was, insts[0]) && Belongs(was, insts[1]);
  }

  // Trained to the updates 1 and 2 ...
  method TrainPair(p: PEFTAdapter, m: Model, id: AdapterId, ghost weight: Parameter)
    requires p.Valid() && p.model == Some(m) && id in p.attached && Pair(p.attached[id], weight)
    modifies Wrappers(p.attached[id])
    ensures p.Valid()
    ensures Trained(p.attached[id])
  {
    OneByOneDelta(1.0);
    OneByOneDelta(2.0);
    var first, second := p.attached[id][0].wrapper, p.attached[id][1].wrapper;
    assert first in Wrappers(p.attached[id]) && second in Wrappers(p.attached[id]);
    first.Train(ONE, [[1.0]]);
    second.Train(ONE, [[2.0]]);
  }

  // ... and merged, both layers are left with the weight 3 and compute what neither
  // wrapper did.
  method MergeShared(id: AdapterId) returns (weight: Parameter, ghost insts: seq<Installation>)
    ensures weight.data == [[3.0]] && Pair(insts, weight) && TornApart(insts, weight)
  {
    var p, m;
    p, m, weight := AttachShared(id);
    insts := p.attached[id];
    TrainPair(p, m, id, weight);
    MergePair(p, m, id, insts, weight);
  }

  method MergePair(p: PEFTAdapter, m: Model, id: AdapterId, ghost insts: seq<Installation>, ghost weight: Parameter)
    requires p.Valid() && p.model == Some(m) && id in p.attached && insts == p.attached[id]
    requires BasesOf(m.children) == {weight} && weight.data == [[0.0]] && Pair(insts, weight) && Trained(insts)
    modifies p, m, weight
    ensures TornApart(insts, weight)
  {
    OneWeight(weight);
    ghost var us := MergeKnown(p, m, id, insts, {weight}, Alone(weight, [[0.0]]));
    OneWeight(weight);
    BothTorn(insts, us, weight);
  }

  // The weights of a model that has only this one.
  function Alone(p: Parameter, w: Matrix): map<Parameter, Matrix> {
    map[p := w]
  }

  lemma {:induction false} OneWeight(weight: Parameter)
    ensures Weights({weight}) == Alone(weight, weight.data)
  {
  }

  lemma {:induction false} BothTorn(insts: seq<Installation>, us: seq<Update<Parameter>>, weight: Parameter)
    requires Pair(insts, weight) && Trained(insts)
    requires MergedExactly(insts, Alone(weight, [[0.0]]), Alone(weight, weight.data), us)
    ensures TornApart(insts, weight)
  {
    assert UpdateOf(insts[0], us, 0) && UpdateOf(insts[1], us, 1);
    TiedWeightChanges(Alone(weight, [[0.0]]), Alone(weight, weight.data), insts[0], insts[1], us);
  }

  ghost predicate Trained(insts: seq<Installation>)
    requires |insts| == 2
    reads insts[0].wrapper, insts[1].wrapper
  {
    insts[0].wrapper.Change() == [[1.0]] && insts[1].wrapper.Change() == [[2.0]]
  }

  ghost predicate TornApart(insts: seq<Installation>, weight: Parameter)
    requires Pair(insts, weight)
    reads weight, insts[0].wrapper, insts[1].wrapper
  {
    && Trained(insts) && weight.data == [[3.0]]
    && !MergedLike(Alone(weight, [[0.0]]), Alone(weight, weight.data), insts[0])
    && !MergedLike(Alone(weight, [[0.0]]), Alone(weight, weight.data), insts[1])
  }
}
