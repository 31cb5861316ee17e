// What a region of the layered shared memory does with a run of writes
// (src/cadgenesis/agents/shared_memory.py:153-160), stated on values: its history,
// which key gives way, and exactly when keys give way no earlier than they should.
module MemoryRuns {
  import opened Results
  import opened Seqs

  datatype Key = Key(name: string)

  datatype Stored<V> = Stored(value: V, at: real)

  // What happened to a region: writes, and keys removed or found expired.
  datatype Op<V> = Write(key: Key, stored: Stored<V>) | Forget(key: Key) | ForgetAll

  // ------------------------------------------------------------------
  // The history

  function LatestAfter<V>(op: Op<V>, before: Option<Stored<V>>, k: Key): Option<Stored<V>> {
    match op
    case Write(j, s) => if j == k then Some(s) else before
    case Forget(j) => if j == k then None else before
    case ForgetAll => None
  }

  // The last write of a key, unless it was removed or expired since.
  function Latest<V>(log: seq<Op<V>>, k: Key): Option<Stored<V>> {
    if log == [] then None else LatestAfter(log[|log| - 1], Latest(log[..|log| - 1], k), k)
  }

  function SinceAfter<V>(op: Op<V>, before: set<Key>, k: Key): set<Key> {
    if !op.Write? then before else if op.key == k then {} else before + {op.key}
  }

  // The other keys written since the last write of a key.
  function Since<V>(log: seq<Op<V>>, k: Key): set<Key> {
    if log == [] then {} else SinceAfter(log[|log| - 1], Since(log[..|log| - 1], k), k)
  }

  lemma {:induction false} OpAdded<V>(log: seq<Op<V>>, op: Op<V>, k: Key)
    ensures Latest(log + [op], k) == LatestAfter(op, Latest(log, k), k)
    ensures Since(log + [op], k) == SinceAfter(op, Since(log, k), k)
  {
    assert (log + [op])[..|log|] == log;
  }

  // ------------------------------------------------------------------
  // The dictionary and its keys in order of insertion

  datatype Region<V> = Region(order: seq<Key>, data: map<Key, Stored<V>>)

  ghost predicate WellKept<V>(r: Region<V>) {
    NoDup(r.order) && Elems(r.order) == r.data.Keys
  }

  // j stands before k in the order.
  predicate Precedes(order: seq<Key>, j: Key, k: Key) {
    order != [] &&
    if order[|order| - 1] == k then j in order[..|order| - 1] else Precedes(order[..|order| - 1], j, k)
  }

  lemma {:induction false} PrecedesInside(order: seq<Key>, j: Key, k: Key)
    requires Precedes(order, j, k)
    ensures j in order && k in order
  {
    var n := |order| - 1;
    if order[n] != k {
      PrecedesInside(order[..n], j, k);
    }
  }

  lemma {:induction false} NothingBefore(order: seq<Key>, j: Key, k: Key)
    requires j !in order
    ensures !Precedes(order, j, k)
  {
    if Precedes(order, j, k) {
      PrecedesInside(order, j, k);
    }
  }

  lemma {:induction false} PrecedesOneWay(order: seq<Key>, j: Key, k: Key)
    requires NoDup(order) && Precedes(order, j, k)
    ensures j != k && !Precedes(order, k, j)
  {
    var n := |order| - 1;
    NoDupCut(order, 0, n);
    assert order[0..n] == order[..n];
    if order[n] == k {
      if Precedes(order[..n], k, j) {
        PrecedesInside(order[..n], k, j);
      }
    } else {
      PrecedesOneWay(order[..n], j, k);
      PrecedesInside(order[..n], j, k);
    }
  }

  function Without(order: seq<Key>, k: Key): (r: seq<Key>)
    ensures forall x {:trigger x in r} :: x in r <==> x in order && x != k
  {
    if order == [] then []
    else
      var front := Without(order[..|order| - 1], k);
      assert order == order[..|order| - 1] + [order[|order| - 1]];
      if order[|order| - 1] == k then front else front + [order[|order| - 1]]
  }

  lemma {:induction false} WithoutKeeps(order: seq<Key>, v: Key)
    requires NoDup(order)
    ensures NoDup(Without(order, v))
  {
    if order != [] {
      var n := |order| - 1;
      NoDupCut(order, 0, n);
      assert order[0..n] == order[..n];
      WithoutKeeps(order[..n], v);
      NoDupSnoc(Without(order[..n], v), order[n]);
    }
  }

  lemma {:induction false} WithoutPrecedes(order: seq<Key>, v: Key, j: Key, k: Key)
    requires j != v && k != v
    ensures Precedes(Without(order, v), j, k) <==> Precedes(order, j, k)
  {
    if order != [] {
      var n := |order| - 1;
      var front := Without(order[..n], v);
      WithoutPrecedes(order[..n], v, j, k);
      assert (front + [order[n]])[..|front|] == front;
      assert j in front <==> j in order[..n];
    }
  }

  // min over the dictionary: the first key with the least time.
  function Victim<V>(order: seq<Key>, data: map<Key, Stored<V>>): (v: Key)
    requires order != [] && forall x {:trigger x in order} :: x in order ==> x in data
    ensures v in order
  {
    var n := |order| - 1;
    assert forall x {:trigger x in order[..n]} :: x in order[..n] ==> x in order;
    assert order[n] in order;
    if n == 0 then order[0]
    else
      var v := Victim(order[..n], data);
      if data[order[n]].at < data[v].at then order[n] else v
  }

  // j was written later than k by the clock or, at equal readings, stands after it.
  predicate Newer<V>(r: Region<V>, j: Key, k: Key) {
    && j in r.data && k in r.data
    && (r.data[k].at < r.data[j].at || (r.data[k].at == r.data[j].at && Precedes(r.order, k, j)))
  }

  lemma {:induction false} NewerOneWay<V>(r: Region<V>, j: Key, k: Key)
    requires WellKept(r) && Newer(r, j, k)
    ensures j != k && !Newer(r, k, j)
  {
    if Precedes(r.order, k, j) {
      PrecedesOneWay(r.order, k, j);
    }
  }

  lemma {:induction false} VictimFirst<V>(order: seq<Key>, data: map<Key, Stored<V>>, j: Key)
    requires order != [] && NoDup(order) && forall x {:trigger x in order} :: x in order ==> x in data
    requires j in order && j != Victim(order, data)
    ensures var v := Victim(order, data);
      data[v].at < data[j].at || (data[v].at == data[j].at && Precedes(order, v, j))
  {
    var n := |order| - 1;
    NoDupCut(order, 0, n);
    assert order[0..n] == order[..n] && order == order[..n] + [order[n]];
    assert forall x {:trigger x in order[..n]} :: x in order[..n] ==> x in order;
    var v := Victim(order[..n], data);
    if j != order[n] && j != v {
      VictimFirst(order[..n], data, j);
    }
  }

  lemma {:induction false} AllNewerThanVictim<V>(r: Region<V>, j: Key)
    requires WellKept(r) && Held(r) && j in r.data && j != Victim(r.order, r.data)
    ensures Newer(r, j, Victim(r.order, r.data))
  {
    assert j in Elems(r.order);
    VictimFirst(r.order, r.data, j);
    assert Victim(r.order, r.data) in r.order;
  }

  // There is a key, and each has its entry.
  ghost predicate Held<V>(r: Region<V>) {
    r.order != [] && forall x {:trigger x in r.order} :: x in r.order ==> x in r.data
  }

  lemma {:induction false} SomeHeld<V>(r: Region<V>)
    requires WellKept(r) && r.data != map[]
    ensures Held(r)
  {
    forall x | x in r.order
      ensures x in r.data
    {
      assert x in Elems(r.order);
    }
    assert r.data.Keys != {};
  }

  // ------------------------------------------------------------------
  // Writing

  function Put<V>(r: Region<V>, k: Key, s: Stored<V>): Region<V> {
    Region(if k in r.data then r.order else r.order + [k], r.data[k := s])
  }

  function Dropped<V>(r: Region<V>, k: Key): Region<V> {
    Region(Without(r.order, k), r.data - {k})
  }

  lemma {:induction false} PutKept<V>(r: Region<V>, k: Key, s: Stored<V>)
    requires WellKept(r)
    ensures WellKept(Put(r, k, s)) && Held(Put(r, k, s))
    ensures |Put(r, k, s).data| == |r.data| + if k in r.data then 0 else 1
  {
    if k !in r.data {
      assert k !in Elems(r.order);
      NoDupSnoc(r.order, k);
      ElemsSnoc(r.order, k);
    }
    var p := Put(r, k, s);
    assert p.data.Keys == r.data.Keys + {k};
    assert |r.data| == |r.data.Keys| && |p.data| == |p.data.Keys|;
    assert k in r.data ==> r.data.Keys + {k} == r.data.Keys;
    assert k in p.data;
    SomeHeld(p);
  }

  lemma {:induction false} DropKept<V>(r: Region<V>, k: Key)
    requires WellKept(r) && k in r.data
    ensures WellKept(Dropped(r, k)) && |Dropped(r, k).data| == |r.data| - 1
    ensures Dropped(r, k).data.Keys == r.data.Keys - {k}
  {
    WithoutKeeps(r.order, k);
    KeyRemoved(r.data, k);
    forall x
      ensures x in Elems(Without(r.order, k)) <==> x in r.data && x != k
    {
      assert x in r.order <==> x in Elems(r.order);
    }
  }

  lemma {:induction false} KeyRemoved<K, W>(m: map<K, W>, k: K)
    requires k in m
    ensures (m - {k}).Keys == m.Keys - {k} && |m - {k}| == |m| - 1
  {
    assert (m - {k}).Keys == m.Keys - {k};
    assert |m| == |m.Keys| && |m - {k}| == |(m - {k}).Keys|;
  }

  // A write, and the key it pushes out when the region is over its capacity.
  ghost function AfterWrite<V>(r: Region<V>, capacity: int, k: Key, s: Stored<V>): (after: Region<V>)
    requires WellKept(r)
    ensures WellKept(after)
  {
    PutKept(r, k, s);
    var p := Put(r, k, s);
    if |p.data| <= capacity then p
    else
      assert Victim(p.order, p.data) in p.order;
      DropKept(p, Victim(p.order, p.data));
      Dropped(p, Victim(p.order, p.data))
  }

  // The region holds no more than it has room for.
  ghost predicate Fits<V>(r: Region<V>, capacity: int) {
    |r.data| <= if capacity < 0 then 0 else capacity
  }

  lemma {:induction false} WriteFits<V>(r: Region<V>, capacity: int, k: Key, s: Stored<V>)
    requires WellKept(r) && Fits(r, capacity)
    ensures Fits(AfterWrite(r, capacity, k, s), capacity)
  {
    PutKept(r, k, s);
    var p := Put(r, k, s);
    if |p.data| > capacity {
      assert Victim(p.order, p.data) in p.order;
      DropKept(p, Victim(p.order, p.data));
    }
  }

  // ------------------------------------------------------------------
  // What a region holds against its history

  // What is held is what was last written.
  ghost predicate Current<V>(log: seq<Op<V>>, data: map<Key, Stored<V>>) {
    forall k {:trigger data[k]} {:trigger k in data} :: k in data ==> Latest(log, k) == Some(data[k])
  }

  // A key that is not held was forgotten, or has given way to at least as many other
  // keys written since as the region has room for.
  ghost predicate GaveWay<V>(log: seq<Op<V>>, data: map<Key, Stored<V>>, capacity: int, k: Key) {
    k in data || Latest(log, k) == None || |Since(log, k)| >= capacity
  }

  ghost predicate Bounded<V>(log: seq<Op<V>>, data: map<Key, Stored<V>>, capacity: int) {
    forall k {:trigger GaveWay(log, data, capacity, k)} :: GaveWay(log, data, capacity, k)
  }

  // Newer keys were written since.
  ghost predicate Recent<V>(log: seq<Op<V>>, r: Region<V>) {
    forall j, k {:trigger Newer(r, j, k)} :: Newer(r, j, k) ==> j in Since(log, k)
  }

  // The bound holds now and the region's order is that of the history.
  ghost predicate Exact<V>(log: seq<Op<V>>, r: Region<V>, capacity: int) {
    Bounded(log, r.data, capacity) && Recent(log, r)
  }

  // After the write no other key is newer than the one written.
  ghost predicate Newest<V>(r: Region<V>, k: Key, s: Stored<V>) {
    forall j {:trigger Newer(Put(r, k, s), j, k)} :: !Newer(Put(r, k, s), j, k)
  }

  // What a caller can look at before the call: no other key was stored with a later
  // reading, nor with the same one behind the place that the key already has.
  ghost predicate Safe<V>(r: Region<V>, k: Key, now: real) {
    forall j {:trigger r.data[j]} :: j in r.data && j != k ==>
      r.data[j].at < now || (r.data[j].at == now && !(k in r.data && Precedes(r.order, k, j)))
  }

  lemma {:induction false} NewerAfterPut<V>(r: Region<V>, k: Key, s: Stored<V>, j: Key)
    requires WellKept(r) && j in r.data && j != k
    ensures Newer(Put(r, k, s), j, k) <==>
      s.at < r.data[j].at || (r.data[j].at == s.at && k in r.data && Precedes(r.order, k, j))
  {
    if k !in r.data {
      assert k !in Elems(r.order) && (r.order + [k])[..|r.order|] == r.order;
      NothingBefore(r.order, k, j);
    }
  }

  lemma {:induction false} SafeMeansNewest<V>(r: Region<V>, k: Key, s: Stored<V>)
    requires WellKept(r)
    ensures Safe(r, k, s.at) <==> Newest(r, k, s)
  {
    var p := Put(r, k, s);
    PutKept(r, k, s);
    if Newer(p, k, k) {
      NewerOneWay(p, k, k);
    }
    if Safe(r, k, s.at) {
      forall j
        ensures !Newer(p, j, k)
      {
        if j in r.data && j != k {
          NewerAfterPut(r, k, s, j);
          assert r.data[j].at == r.data[j].at;
        }
      }
    }
    if Newest(r, k, s) {
      forall j | j in r.data && j != k
        ensures r.data[j].at < s.at || (r.data[j].at == s.at && !(k in r.data && Precedes(r.order, k, j)))
      {
        NewerAfterPut(r, k, s, j);
        assert !Newer(p, j, k);
      }
    }
  }

  // ------------------------------------------------------------------
  // A safe write keeps the bound

  lemma {:induction false} PutRecent<V>(log: seq<Op<V>>, r: Region<V>, k: Key, s: Stored<V>)
    requires WellKept(r) && Recent(log, r) && Newest(r, k, s)
    ensures Recent(log + [Write(k, s)], Put(r, k, s))
  {
    var p := Put(r, k, s);
    forall i, j | Newer(p, j, i)
      ensures j in Since(log + [Write(k, s)], i)
    {
      OpAdded(log, Write(k, s), i);
      assert i != k;
      if j != k {
        if k !in r.data {
          assert p.order[..|r.order|] == r.order;
        }
        assert Newer(r, j, i);
      }
    }
  }

  lemma {:induction false} PutBounded<V>(log: seq<Op<V>>, data: map<Key, Stored<V>>, capacity: int, k: Key,
      s: Stored<V>)
    requires Bounded(log, data, capacity)
    ensures Bounded(log + [Write(k, s)], data[k := s], capacity)
  {
    var after, held := log + [Write(k, s)], data[k := s];
    forall j
      ensures GaveWay(after, held, capacity, j)
    {
      OpAdded(log, Write(k, s), j);
      assert GaveWay(log, data, capacity, j);
      SubsetCard(Since(log, j), Since(log, j) + {k});
    }
  }

  lemma {:induction false} PutCurrent<V>(log: seq<Op<V>>, data: map<Key, Stored<V>>, k: Key, s: Stored<V>)
    requires Current(log, data)
    ensures Current(log + [Write(k, s)], data[k := s])
  {
    forall j | j in data[k := s]
      ensures Latest(log + [Write(k, s)], j) == Some(data[k := s][j])
    {
      OpAdded(log, Write(k, s), j);
    }
  }

  lemma {:induction false} DropRecent<V>(log: seq<Op<V>>, r: Region<V>, v: Key)
    requires Recent(log, r)
    ensures Recent(log, Dropped(r, v))
  {
    forall i, j | Newer(Dropped(r, v), j, i)
      ensures j in Since(log, i)
    {
      WithoutPrecedes(r.order, v, i, j);
      assert Newer(r, j, i);
    }
  }

  // Every other key was written since the one that gives way.
  lemma {:induction false} EvictBounded<V>(log: seq<Op<V>>, r: Region<V>, capacity: int)
    requires WellKept(r) && Held(r) && Exact(log, r, capacity) && |r.data| > capacity
    ensures Bounded(log, r.data - {Victim(r.order, r.data)}, capacity)
  {
    var v := Victim(r.order, r.data);
    assert v in r.order;
    var rest := r.data - {v};
    KeyRemoved(r.data, v);
    forall j | j in rest.Keys
      ensures j in Since(log, v)
    {
      AllNewerThanVictim(r, j);
    }
    assert |rest| == |rest.Keys|;
    SubsetCard(rest.Keys, Since(log, v));
    forall j
      ensures GaveWay(log, rest, capacity, j)
    {
      assert GaveWay(log, r.data, capacity, j);
    }
  }

  lemma {:induction false} WriteCurrent<V>(log: seq<Op<V>>, r: Region<V>, capacity: int, k: Key, s: Stored<V>)
    requires WellKept(r) && Current(log, r.data)
    ensures Current(log + [Write(k, s)], AfterWrite(r, capacity, k, s).data)
  {
    PutCurrent(log, r.data, k, s);
  }

  // The eviction bound survives a safe write, whatever the clock did before.
  lemma {:induction false} SafeWriteKeepsBound<V>(log: seq<Op<V>>, r: Region<V>, capacity: int, k: Key, s: Stored<V>)
    requires WellKept(r) && Exact(log, r, capacity) && Safe(r, k, s.at)
    ensures Exact(log + [Write(k, s)], AfterWrite(r, capacity, k, s), capacity)
  {
    var p, after := Put(r, k, s), log + [Write(k, s)];
    SafeMeansNewest(r, k, s);
    PutKept(r, k, s);
    PutRecent(log, r, k, s);
    PutBounded(log, r.data, capacity, k, s);
    if |p.data| > capacity {
      EvictBounded(after, p, capacity);
      DropRecent(after, p, Victim(p.order, p.data));
    }
  }

  lemma {:induction false} ForgottenKeepsBound<V>(log: seq<Op<V>>, r: Region<V>, capacity: int, k: Key)
    requires Exact(log, r, capacity)
    ensures Exact(log + [Forget(k)], Dropped(r, k), capacity)
  {
    var after, rest := log + [Forget(k)], Dropped(r, k);
    DropRecent(log, r, k);
    forall i, j | Newer(rest, j, i)
      ensures j in Since(after, i)
    {
      OpAdded(log, Forget(k), i);
    }
    forall j
      ensures GaveWay(after, rest.data, capacity, j)
    {
      OpAdded(log, Forget(k), j);
      assert GaveWay(log, r.data, capacity, j);
    }
  }

  lemma {:induction false} ForgottenCurrent<V>(log: seq<Op<V>>, data: map<Key, Stored<V>>, k: Key)
    requires Current(log, data)
    ensures Current(log + [Forget(k)], data - {k})
  {
    forall j | j in data - {k}
      ensures Latest(log + [Forget(k)], j) == Some((data - {k})[j])
    {
      OpAdded(log, Forget(k), j);
    }
  }

  lemma {:induction false} NothingHeld<V>(log: seq<Op<V>>, capacity: int)
    ensures Exact(log + [ForgetAll], Region([], map[]), capacity) && Exact<V>([], Region([], map[]), capacity)
  {
    forall j
      ensures GaveWay(log + [ForgetAll], map[], capacity, j) && GaveWay<V>([], map[], capacity, j)
    {
      OpAdded(log, ForgetAll, j);
    }
  }

  // ------------------------------------------------------------------
  // An unsafe write breaks it

  datatype Writing<V> = Writing(key: Key, stored: Stored<V>)

  ghost function AfterWrites<V>(r: Region<V>, capacity: int, ws: seq<Writing<V>>): (after: Region<V>)
    requires WellKept(r)
    ensures WellKept(after)
  {
    if ws == [] then r
    else
      var n := |ws| - 1;
      AfterWrite(AfterWrites(r, capacity, ws[..n]), capacity, ws[n].key, ws[n].stored)
  }

  function LogOf<V>(ws: seq<Writing<V>>): seq<Op<V>> {
    if ws == [] then [] else LogOf(ws[..|ws| - 1]) + [Write(ws[|ws| - 1].key, ws[|ws| - 1].stored)]
  }

  // Every write of the run is safe.
  ghost predicate SafeRun<V>(r: Region<V>, capacity: int, ws: seq<Writing<V>>)
    requires WellKept(r)
  {
    ws != [] ==>
      var n := |ws| - 1;
      SafeRun(r, capacity, ws[..n]) && Safe(AfterWrites(r, capacity, ws[..n]), ws[n].key, ws[n].stored.at)
  }

  lemma {:induction false} SafeRunKeepsBound<V>(log: seq<Op<V>>, r: Region<V>, capacity: int, ws: seq<Writing<V>>)
    requires WellKept(r) && Exact(log, r, capacity) && SafeRun(r, capacity, ws)
    ensures Exact(log + LogOf(ws), AfterWrites(r, capacity, ws), capacity)
  {
    if ws == [] {
      assert log + LogOf(ws) == log;
    } else {
      var n := |ws| - 1;
      SafeRunKeepsBound(log, r, capacity, ws[..n]);
      SafeWriteKeepsBound(log + LogOf(ws[..n]), AfterWrites(r, capacity, ws[..n]), capacity, ws[n].key, ws[n].stored);
      assert log + LogOf(ws) == log + LogOf(ws[..n]) + [Write(ws[n].key, ws[n].stored)];
    }
  }

  // Keys that no key in the order is as long as.
  function Longest(order: seq<Key>): (n: nat)
    ensures forall x {:trigger x in order} :: x in order ==> |x.name| <= n
  {
    if order == [] then 0
    else
      var n := Longest(order[..|order| - 1]);
      assert order == order[..|order| - 1] + [order[|order| - 1]];
      if |order[|order| - 1].name| > n then |order[|order| - 1].name| else n
  }

  function Name(n: nat): (k: Key)
    ensures |k.name| == n
  {
    Key(seq(n, _ => 'x'))
  }

  function Names(base: nat, n: nat): (ks: set<Key>)
    ensures |ks| == n && forall k {:trigger k in ks} :: k in ks ==> base < |k.name| <= base + n
  {
    if n == 0 then {} else Names(base, n - 1) + {Name(base + n)}
  }

  function NewWrites<V>(base: nat, n: nat, s: Stored<V>): (ws: seq<Writing<V>>)
    ensures |ws| == n
  {
    if n == 0 then [] else NewWrites(base, n - 1, s) + [Writing(Name(base + n), s)]
  }

  // All readings are at most t.
  ghost predicate UpTo<V>(data: map<Key, Stored<V>>, t: real) {
    forall k {:trigger data[k]} :: k in data ==> data[k].at <= t
  }

  function LatestReading<V>(order: seq<Key>, data: map<Key, Stored<V>>): (t: real)
    ensures forall k {:trigger k in order} :: k in order && k in data ==> data[k].at <= t
  {
    if order == [] then 0.0
    else
      var n := |order| - 1;
      var t := LatestReading(order[..n], data);
      assert order == order[..n] + [order[n]];
      if order[n] in data && data[order[n]].at > t then data[order[n]].at else t
  }

  ghost function Behind<V>(r: Region<V>, k: Key): set<Key> {
    set j | j in r.data && Newer(r, j, k)
  }

  lemma {:induction false} PutBehind<V>(r: Region<V>, k: Key, x: Key, s: Stored<V>)
    requires WellKept(r) && k in r.data && x !in r.data && r.data[k].at < s.at
    ensures Behind(r, k) + {x} <= Behind(Put(r, x, s), k)
  {
    var p := Put(r, x, s);
    assert p.order[..|r.order|] == r.order;
    forall j | j in Behind(r, k) + {x}
      ensures j in Behind(p, k)
    {
      assert Newer(p, j, k);
    }
  }

  lemma {:induction false} DropBehind<V>(r: Region<V>, k: Key)
    requires WellKept(r) && Held(r) && k in r.data && k != Victim(r.order, r.data)
    ensures Behind(r, k) <= Behind(Dropped(r, Victim(r.order, r.data)), k)
  {
    var v := Victim(r.order, r.data);
    AllNewerThanVictim(r, k);
    forall j | j in Behind(r, k)
      ensures j in Behind(Dropped(r, v), k)
    {
      NewerOneWay(r, j, k);
      WithoutPrecedes(r.order, v, k, j);
    }
  }

  // Writing other keys leaves those newer than k in place while k is held.
  lemma {:induction false} BehindStays<V>(r: Region<V>, capacity: int, k: Key, x: Key, s: Stored<V>)
    requires WellKept(r) && k in r.data && x !in r.data
    requires k in AfterWrite(r, capacity, x, s).data && r.data[k].at < s.at
    ensures Behind(r, k) + {x} <= Behind(AfterWrite(r, capacity, x, s), k)
    ensures AfterWrite(r, capacity, x, s).data[k] == r.data[k]
  {
    var p := Put(r, x, s);
    PutKept(r, x, s);
    PutBehind(r, k, x, s);
    if |p.data| > capacity {
      assert Victim(p.order, p.data) in p.order;
      DropBehind(p, k);
    }
  }

  // While new keys are written, k is pushed out or ever more keys are newer.
  ghost predicate Pushing<V>(r: Region<V>, now: Region<V>, capacity: int, k: Key, base: nat, i: nat, t: real) {
    && WellKept(now) && Fits(now, capacity) && UpTo(now.data, t) && now.data.Keys <= r.data.Keys + Names(base, i)
    && (k in now.data ==> now.data[k].at < t && Behind(r, k) + Names(base, i) <= Behind(now, k))
  }

  // What the new keys are written with, and how long their names are at least.
  ghost predicate Room<V>(r: Region<V>, k: Key, base: nat, s: Stored<V>) {
    && |k.name| <= base && (forall j {:trigger j in r.data} :: j in r.data ==> |j.name| <= base && r.data[j].at < s.at)
  }

  lemma {:induction false} NewKeyWritten<V>(r: Region<V>, capacity: int, x: Key, s: Stored<V>)
    requires WellKept(r) && UpTo(r.data, s.at) && x !in r.data
    ensures UpTo(AfterWrite(r, capacity, x, s).data, s.at) && Safe(r, x, s.at)
    ensures AfterWrite(r, capacity, x, s).data.Keys <= r.data.Keys + {x}
  {
  }

  lemma {:induction false} PushOnce<V>(r: Region<V>, now: Region<V>, capacity: int, k: Key, base: nat, i: nat,
      s: Stored<V>)
    requires i > 0 && Room(r, k, base, s) && Pushing(r, now, capacity, k, base, i - 1, s.at)
    ensures Pushing(r, AfterWrite(now, capacity, Name(base + i), s), capacity, k, base, i, s.at)
    ensures Safe(now, Name(base + i), s.at)
  {
    NameIsNew(r, now, capacity, k, base, i, s);
    PushedFits(r, now, capacity, base, i, s);
    if k in AfterWrite(now, capacity, Name(base + i), s).data {
      assert Names(base, i) == Names(base, i - 1) + {Name(base + i)};
      BehindStays(now, capacity, k, Name(base + i), s);
    }
  }

  lemma {:induction false} NameIsNew<V>(r: Region<V>, now: Region<V>, capacity: int, k: Key, base: nat, i: nat,
      s: Stored<V>)
    requires i > 0 && Room(r, k, base, s) && Pushing(r, now, capacity, k, base, i - 1, s.at)
    ensures Name(base + i) !in now.data && (k in AfterWrite(now, capacity, Name(base + i), s).data ==> k in now.data)
  {
    var x := Name(base + i);
    assert x !in r.data && x !in Names(base, i - 1) && k != x;
    NewKeyWritten(now, capacity, x, s);
  }

  lemma {:induction false} PushedFits<V>(r: Region<V>, now: Region<V>, capacity: int, base: nat, i: nat, s: Stored<V>)
    requires i > 0 && WellKept(now) && Fits(now, capacity) && UpTo(now.data, s.at) && Name(base + i) !in now.data
    requires now.data.Keys <= r.data.Keys + Names(base, i - 1)
    ensures var after := AfterWrite(now, capacity, Name(base + i), s);
      && Fits(after, capacity) && UpTo(after.data, s.at) && after.data.Keys <= r.data.Keys + Names(base, i)
    ensures Safe(now, Name(base + i), s.at)
  {
    WriteFits(now, capacity, Name(base + i), s);
    NewKeyWritten(now, capacity, Name(base + i), s);
    OneMoreName(AfterWrite(now, capacity, Name(base + i), s).data.Keys, now.data.Keys, r.data.Keys, base, i);
  }

  lemma {:induction false} OneMoreName(after: set<Key>, before: set<Key>, keys: set<Key>, base: nat, i: nat)
    requires i > 0 && after <= before + {Name(base + i)} && before <= keys + Names(base, i - 1)
    ensures after <= keys + Names(base, i)
  {
    assert Names(base, i) == Names(base, i - 1) + {Name(base + i)};
  }

  lemma {:induction false} PushOn<V>(r: Region<V>, capacity: int, k: Key, base: nat, n: nat, s: Stored<V>)
    requires WellKept(r) && Fits(r, capacity) && k in r.data && Room(r, k, base, s)
    ensures Pushing(r, AfterWrites(r, capacity, NewWrites(base, n, s)), capacity, k, base, n, s.at)
    ensures SafeRun(r, capacity, NewWrites(base, n, s))
  {
    var ws := NewWrites(base, n, s);
    if n == 0 {
      PushStarts(r, capacity, k, base, s);
    } else {
      var front := NewWrites(base, n - 1, s);
      PushOn(r, capacity, k, base, n - 1, s);
      LastWrite(r, capacity, front, Writing(Name(base + n), s));
      PushOnce(r, AfterWrites(r, capacity, front), capacity, k, base, n, s);
      assert ws == front + [Writing(Name(base + n), s)];
    }
  }

  lemma {:induction false} PushStarts<V>(r: Region<V>, capacity: int, k: Key, base: nat, s: Stored<V>)
    requires WellKept(r) && Fits(r, capacity) && k in r.data && Room(r, k, base, s)
    ensures Pushing(r, r, capacity, k, base, 0, s.at)
  {
  }

  lemma {:induction false} LastWrite<V>(r: Region<V>, capacity: int, ws: seq<Writing<V>>, w: Writing<V>)
    requires WellKept(r)
    ensures AfterWrites(r, capacity, ws + [w]) == AfterWrite(AfterWrites(r, capacity, ws), capacity, w.key, w.stored)
    ensures SafeRun(r, capacity, ws + [w]) <==>
      SafeRun(r, capacity, ws) && Safe(AfterWrites(r, capacity, ws), w.key, w.stored.at)
  {
    assert (ws + [w])[..|ws|] == ws;
  }

  lemma {:induction false} SomeNewer<V>(r: Region<V>, capacity: int, k: Key, s: Stored<V>)
    requires WellKept(r) && Fits(r, capacity) && !Safe(r, k, s.at)
    ensures capacity >= 1
    ensures k in AfterWrite(r, capacity, k, s).data ==> Behind(AfterWrite(r, capacity, k, s), k) != {}
  {
    var p := Put(r, k, s);
    SafeMeansNewest(r, k, s);
    PutKept(r, k, s);
    var j :| Newer(p, j, k);
    assert j in Behind(p, k);
    NewerOneWay(p, j, k);
    assert r.data.Keys != {} && |r.data| == |r.data.Keys|;
    if |p.data| > capacity && k != Victim(p.order, p.data) {
      DropBehind(p, k);
    }
  }

  lemma {:induction false} BehindFits<V>(r: Region<V>, capacity: int, k: Key)
    requires WellKept(r) && Fits(r, capacity) && k in r.data
    ensures |Behind(r, k)| < capacity
  {
    if k in Behind(r, k) {
      NewerOneWay(r, k, k);
    }
    SubsetCard(Behind(r, k) + {k}, r.data.Keys);
    assert |r.data| == |r.data.Keys|;
  }

  lemma {:induction false} PushedOut<V>(r: Region<V>, now: Region<V>, capacity: int, k: Key, base: nat, m: nat,
      s: Stored<V>)
    requires Room(r, k, base, s) && Pushing(r, now, capacity, k, base, m, s.at)
    requires capacity >= 1 && m == capacity - |Behind(r, k)|
    ensures k !in now.data
  {
    assert |now.data| == |now.data.Keys|;
    if k in now.data {
      var newer := Behind(r, k) + Names(base, m);
      if k in newer {
        NewerOneWay(now, k, k);
      }
      assert Behind(r, k) !! Names(base, m);
      SubsetCard(newer + {k}, now.data.Keys);
    }
  }

  lemma {:induction false} SinceNewWrites<V>(log: seq<Op<V>>, k: Key, base: nat, n: nat, s: Stored<V>)
    requires Since(log, k) == {} && |k.name| <= base
    ensures Since(log + LogOf(NewWrites(base, n, s)), k) == Names(base, n)
    ensures Latest(log + LogOf(NewWrites(base, n, s)), k) == Latest(log, k)
  {
    var ws := NewWrites(base, n, s);
    if n == 0 {
      assert log + LogOf(ws) == log;
    } else {
      SinceNewWrites(log, k, base, n - 1, s);
      assert ws[..n - 1] == NewWrites(base, n - 1, s);
      OpAdded(log + LogOf(ws[..n - 1]), Write(Name(base + n), s), k);
      assert log + LogOf(ws) == log + LogOf(ws[..n - 1]) + [Write(Name(base + n), s)];
    }
  }

  // After an unsafe write some run of safe ones pushes the key out too early: it
  // takes one new key fewer than there is room for with every key newer than it.
  lemma {:induction false} UnsafeWriteBreaksBound<V>(log: seq<Op<V>>, r: Region<V>, capacity: int, k: Key, s: Stored<V>)
      returns (ws: seq<Writing<V>>)
    requires WellKept(r) && Fits(r, capacity) && !Safe(r, k, s.at)
    ensures SafeRun(AfterWrite(r, capacity, k, s), capacity, ws)
    ensures !GaveWay(log + [Write(k, s)] + LogOf(ws), AfterWrites(AfterWrite(r, capacity, k, s), capacity, ws).data,
      capacity, k)
  {
    var r1, log1 := AfterWrite(r, capacity, k, s), log + [Write(k, s)];
    OpAdded(log, Write(k, s), k);
    WriteFits(r, capacity, k, s);
    if k !in r1.data {
      ws := [];
      assert log1 + LogOf(ws) == log1;
      SomeNewer(r, capacity, k, s);
    } else {
      var base := Longest([k] + r1.order);
      var t := Stored(s.value, LatestReading(r1.order, r1.data) + 1.0);
      assert Room(r1, k, base, t) by {
        assert k in [k] + r1.order;
        forall j | j in r1.data
          ensures |j.name| <= base && r1.data[j].at < t.at
        {
          assert j in Elems(r1.order);
          assert j in [k] + r1.order;
        }
      }
      SomeNewer(r, capacity, k, s);
      var m := capacity - |Behind(r1, k)|;
      BehindFits(r1, capacity, k);
      ws := NewWrites(base, m, t);
      PushOn(r1, capacity, k, base, m, t);
      PushedOut(r1, AfterWrites(r1, capacity, ws), capacity, k, base, m, t);
      SinceNewWrites(log1, k, base, m, t);
    }
  }

  // After this run of writes the bound holds, if all of them are safe.
  ghost predicate StaysBounded<V>(log: seq<Op<V>>, r: Region<V>, capacity: int, ws: seq<Writing<V>>)
    requires WellKept(r)
  {
    SafeRun(r, capacity, ws) ==> Bounded(log + LogOf(ws), AfterWrites(r, capacity, ws).data, capacity)
  }

  // A write is safe exactly when the bound then holds through every run of safe
  // writes.
  lemma {:induction false} SafeExactly<V>(log: seq<Op<V>>, r: Region<V>, capacity: int, k: Key, s: Stored<V>)
    requires WellKept(r) && Fits(r, capacity) && Exact(log, r, capacity)
    ensures var r1 := AfterWrite(r, capacity, k, s);
      var log1 := log + [Write(k, s)];
      Safe(r, k, s.at) <==> forall ws {:trigger StaysBounded(log1, r1, capacity, ws)} ::
        StaysBounded(log1, r1, capacity, ws)
  {
    var r1, log1 := AfterWrite(r, capacity, k, s), log + [Write(k, s)];
    if Safe(r, k, s.at) {
      SafeWriteKeepsBound(log, r, capacity, k, s);
      forall ws
        ensures StaysBounded(log1, r1, capacity, ws)
      {
        if SafeRun(r1, capacity, ws) {
          SafeRunKeepsBound(log1, r1, capacity, ws);
        }
      }
    } else {
      var ws := UnsafeWriteBreaksBound(log, r, capacity, k, s);
      assert !StaysBounded(log1, r1, capacity, ws);
    }
  }

  // j was stored with this reading behind the place that k already has.
  predicate Hides<V>(r: Region<V>, j: Key, k: Key, now: real) {
    j in r.data && k in r.data && r.data[j].at == now && Precedes(r.order, k, j)
  }

  // With a clock that does not fall, a write is unsafe exactly when the key is held
  // and another was stored behind its place with the same reading.
  lemma {:induction false} SafeUnderSteadyClock<V>(r: Region<V>, k: Key, now: real)
    requires WellKept(r) && UpTo(r.data, now)
    ensures Safe(r, k, now) <==> !exists j {:trigger Hides(r, j, k, now)} :: Hides(r, j, k, now)
  {
    if !Safe(r, k, now) {
      var j :| j in r.data && j != k &&
        !(r.data[j].at < now || (r.data[j].at == now && !(k in r.data && Precedes(r.order, k, j))));
      assert Hides(r, j, k, now);
    } else {
      forall j
        ensures !Hides(r, j, k, now)
      {
        if Hides(r, j, k, now) {
          PrecedesOneWay(r.order, k, j);
        }
      }
    }
  }

  // The smallest failure, in a region for two keys on one reading of the clock: a
  // keeps its place in front of b when it is written again, and the next key pushes
  // it out although only that one was written since.
  lemma {:induction false} EqualTimesEvictTooEarly<V>(a: Key, b: Key, c: Key, s: Stored<V>)
    requires a != b && a != c && b != c
    ensures var two := AfterWrite(AfterWrite(Region([], map[]), 2, a, s), 2, b, s);
      var log := [Write(a, s), Write(b, s), Write(a, s), Write(c, s)];
      && !Safe(two, a, s.at)
      && AfterWrite(AfterWrite(two, 2, a, s), 2, c, s) == Region([b, c], map[b := s, c := s])
      && Latest(log, a) == Some(s) && Since(log, a) == {c}
  {
    ABAWritten(a, b, s);
    ABACLogged(a, b, c, s);
    ThirdKey(a, b, c, s);
    NotSafe(a, b, s);
  }

  lemma {:induction false} NotSafe<V>(a: Key, b: Key, s: Stored<V>)
    requires a != b
    ensures WellKept(Region([a, b], map[a := s, b := s])) && !Safe(Region([a, b], map[a := s, b := s]), a, s.at)
  {
    var two := Region([a, b], map[a := s, b := s]);
    TwoKept(a, b, s);
    assert [a, b][..1] == [a];
    assert two.data[b].at == s.at && Precedes(two.order, a, b);
  }

  lemma {:induction false} ABAWritten<V>(a: Key, b: Key, s: Stored<V>)
    requires a != b
    ensures var two := Region([a, b], map[a := s, b := s]);
      && AfterWrite(AfterWrite(Region([], map[]), 2, a, s), 2, b, s) == two
      && WellKept(two) && AfterWrite(two, 2, a, s) == two
  {
    var two := Region([a, b], map[a := s, b := s]);
    WriteInRoom(Region([], map[]), 2, a, s, Region([a], map[a := s]));
    WriteInRoom(Region([a], map[a := s]), 2, b, s, two);
    assert two.data[a := s] == two.data;
    WriteInRoom(two, 2, a, s, two);
  }

  lemma {:induction false} ABACLogged<V>(a: Key, b: Key, c: Key, s: Stored<V>)
    requires a != b && a != c && b != c
    ensures var log := [Write(a, s), Write(b, s), Write(a, s), Write(c, s)];
      Latest(log, a) == Some(s) && Since(log, a) == {c}
  {
    var two, three := [Write(a, s), Write(b, s)], [Write(a, s), Write(b, s), Write(a, s)];
    OpAdded(two, Write(a, s), a);
    assert two + [Write(a, s)] == three;
    OpAdded(three, Write(c, s), a);
    assert three + [Write(c, s)] == [Write(a, s), Write(b, s), Write(a, s), Write(c, s)];
  }

  lemma {:induction false} WriteInRoom<V>(r: Region<V>, capacity: int, k: Key, s: Stored<V>, after: Region<V>)
    requires WellKept(r) && |after.data| <= capacity
    requires after.data == r.data[k := s] && after.order == if k in r.data then r.order else r.order + [k]
    ensures AfterWrite(r, capacity, k, s) == after
  {
  }

  lemma {:induction false} ThreeKeys<W>(data: map<Key, W>, a: Key, b: Key, c: Key)
    requires a != b && a != c && b != c && data.Keys == {a, b, c}
    ensures |data| == 3
  {
    assert |data| == |data.Keys|;
  }

  lemma {:induction false} FirstOfThree<V>(a: Key, b: Key, c: Key, data: map<Key, Stored<V>>, s: Stored<V>)
    requires a != b && a != c && b != c && data == map[a := s, b := s, c := s]
    ensures Victim([a, b, c], data) == a && Without([a, b, c], a) == [b, c]
  {
    var order := [a, b, c];
    assert order[..2] == [a, b] && order[..2][..1] == [a];
    assert Victim(order[..2], data) == a;
    assert order[..2][..1][..0] == [] && Without(order[..2][..1], a) == [];
    assert Without(order[..2], a) == [] + [b] && Without(order, a) == [b] + [c];
  }

  lemma {:induction false} ThirdKey<V>(a: Key, b: Key, c: Key, s: Stored<V>)
    requires a != b && a != c && b != c
    ensures WellKept(Region([a, b], map[a := s, b := s]))
    ensures AfterWrite(Region([a, b], map[a := s, b := s]), 2, c, s) == Region([b, c], map[b := s, c := s])
  {
    var order, data := [a, b, c], map[a := s, b := s, c := s];
    FirstOfThree(a, b, c, data, s);
    assert data - {a} == map[b := s, c := s];
    ThreeKeys(data, a, b, c);
    TwoKept(a, b, s);
    assert Put(Region([a, b], map[a := s, b := s]), c, s) == Region(order, data);
  }

  lemma {:induction false} TwoKept<V>(a: Key, b: Key, s: Stored<V>)
    requires a != b
    ensures WellKept(Region([a, b], map[a := s, b := s]))
  {
    assert Differ([a, b], 0, 1);
  }
}
