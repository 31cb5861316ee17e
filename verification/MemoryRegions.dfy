// A region of the layered shared memory (src/cadgenesis/agents/shared_memory.py): key,
// value and time of writing, bounded by a capacity and a time to live.
module MemoryRegions {
  import opened Results
  import opened Seqs
  import opened MemoryRuns

  predicate Fresh<V>(s: Stored<V>, ttl: Option<real>, now: real) {
    ttl == None || now - s.at <= ttl.value
  }

  // The loop behind min: the first key with the least time.
  method Oldest<V>(order: seq<Key>, data: map<Key, Stored<V>>) returns (k: Key)
    requires order != [] && NoDup(order) && forall x {:trigger x in order} :: x in order ==> x in data
    ensures k == Victim(order, data) && k in order
    ensures forall j {:trigger data[j]} :: j in order && j != k ==>
      data[k].at < data[j].at || (data[k].at == data[j].at && Precedes(order, k, j))
  {
    CoveredFront(order, data, 1);
    k := order[0];
    for n := 1 to |order|
      invariant Covered(order[..n], data) && k == Victim(order[..n], data)
    {
      CoveredFront(order, data, n + 1);
      assert order[..n + 1][..n] == order[..n] && order[n] in order;
      if data[order[n]].at < data[k].at {
        k := order[n];
      }
    }
    assert order[..|order|] == order;
    forall j | j in order && j != k
      ensures data[k].at < data[j].at || (data[k].at == data[j].at && Precedes(order, k, j))
    {
      VictimFirst(order, data, j);
    }
  }

  ghost predicate Covered<V>(order: seq<Key>, data: map<Key, Stored<V>>) {
    order != [] && forall x {:trigger x in order} :: x in order ==> x in data
  }

  lemma {:induction false} CoveredFront<V>(order: seq<Key>, data: map<Key, Stored<V>>, n: nat)
    requires Covered(order, data) && 0 < n <= |order|
    ensures Covered(order[..n], data)
  {
    forall x | x in order[..n]
      ensures x in data
    {
      assert x in order;
    }
  }

  function Live<V>(data: map<Key, Stored<V>>, ttl: Option<real>, now: real): Key -> bool {
    k => k in data && Fresh(data[k], ttl, now)
  }

  lemma {:induction false} InData<V>(r: Region<V>, i: nat)
    requires WellKept(r) && i < |r.order|
    ensures r.order[i] in r.data
  {
    assert r.order[i] in Elems(r.order);
  }

  // The comprehension of keys.
  method LiveKeys<V>(r: Region<V>, ttl: Option<real>, now: real) returns (keys: seq<Key>)
    requires WellKept(r)
    ensures NoDup(keys) && keys == Filter(r.order, Live(r.data, ttl, now))
    ensures forall k {:trigger k in r.data} :: k in keys <==> k in r.data && Fresh(r.data[k], ttl, now)
  {
    keys := [];
    ghost var live := Live(r.data, ttl, now);
    for n := 0 to |r.order|
      invariant keys == Filter(r.order[..n], live)
    {
      InData(r, n);
      assert r.order[..n + 1] == r.order[..n] + [r.order[n]];
      FilterSnoc(r.order[..n], r.order[n], live);
      if ttl == None || now - r.data[r.order[n]].at <= ttl.value {
        keys := keys + [r.order[n]];
      }
    }
    assert r.order[..|r.order|] == r.order;
    FilterNoDup(r.order, live);
    forall k
      ensures k in keys <==> k in r.data && Fresh(r.data[k], ttl, now)
    {
      assert k in r.order <==> k in Elems(r.order);
      assert k in keys <==> k in r.order && live(k);
    }
  }

  // The write, and the eviction that may follow it.
  method WriteInto<V>(was: Region<V>, capacity: int, key: Key, s: Stored<V>) returns (r: Region<V>)
    requires WellKept(was)
    ensures r == AfterWrite(was, capacity, key, s)
  {
    PutKept(was, key, s);
    var order, data := was.order, was.data;
    if key !in data {
      order := order + [key];
    }
    data := data[key := s];
    if |data| > capacity {
      var oldest := Oldest(order, data);
      data := data - {oldest};
      order := Without(order, oldest);
    }
    r := Region(order, data);
  }

  lemma {:induction false} WriteKeeps<V>(log: seq<Op<V>>, r: Region<V>, capacity: int, k: Key, s: Stored<V>)
    requires WellKept(r) && Fits(r, capacity) && Current(log, r.data)
    ensures var after := AfterWrite(r, capacity, k, s);
      && Fits(after, capacity) && Current(log + [Write(k, s)], after.data)
      && (Exact(log, r, capacity) && Safe(r, k, s.at) ==> Exact(log + [Write(k, s)], after, capacity))
  {
    WriteFits(r, capacity, k, s);
    WriteCurrent(log, r, capacity, k, s);
    if Exact(log, r, capacity) && Safe(r, k, s.at) {
      SafeWriteKeepsBound(log, r, capacity, k, s);
    }
  }

  class MemoryRegion<V> {
    const name: Key
    const capacity: int
    const ttl: Option<real>
    // The dictionary, and its keys in order of insertion.
    var data: map<Key, Stored<V>>
    var order: seq<Key>
    ghost var log: seq<Op<V>>

    function State(): Region<V>
      reads this
    {
      Region(order, data)
    }

    ghost predicate Valid()
      reads this
    {
      WellKept(State()) && Fits(State(), capacity) && Current(log, data)
    }

    // Keys have given way no earlier than they should.
    ghost predicate Lasting()
      reads this
    {
      Exact(log, State(), capacity)
    }

    constructor (name: Key, capacity: int, ttl: Option<real>)
      ensures Valid() && Lasting() && this.name == name && this.capacity == capacity && this.ttl == ttl
      ensures log == [] && data == map[] && order == []
    {
      this.name, this.capacity, this.ttl := name, capacity, ttl;
      data, order, log := map[], [], [];
      new;
      NothingHeld(log, capacity);
    }

    // The key holds the value, and when the region is then too full the oldest key
    // goes.  A safe write, which can be told before the call, keeps the bound.
    method Set(key: Key, value: V, now: real)
      requires Valid()
      modifies this
      ensures Valid() && log == old(log) + [Write(key, Stored(value, now))]
      ensures State() == AfterWrite(old(State()), capacity, key, Stored(value, now))
      ensures old(Lasting()) && Safe(old(State()), key, now) ==> Lasting()
    {
      var s := Stored(value, now);
      WriteKeeps(log, State(), capacity, key, s);
      var r := WriteInto(State(), capacity, key, s);
      Become(r, Write(key, s));
    }

    method Become(r: Region<V>, ghost op: Op<V>)
      requires WellKept(r) && Fits(r, capacity) && Current(log + [op], r.data)
      modifies this
      ensures Valid() && State() == r && log == old(log) + [op]
    {
      data, order, log := r.data, r.order, log + [op];
    }

    // The value last written, unless it was removed, has expired, or gave way; and it
    // gave way, as long as writes are safe, to as many other keys as there is room for.
    method Get(key: Key, now: real) returns (r: Option<V>)
      requires Valid()
      modifies this
      ensures Valid() && (old(Lasting()) ==> Lasting())
      ensures Looked(old(State()), old(log), key, ttl, now, r, State(), log)
      ensures r.None? && old(Lasting()) ==> GoneFor(old(log), key, capacity, ttl, now)
    {
      if key !in data {
        assert data - {key} == data;
        assert Lasting() ==> GaveWay(log, data, capacity, key);
        return None;
      }
      if ttl.Some? && now - data[key].at > ttl.value {
        Drop(key);
        return None;
      }
      return Some(data[key].value);
    }

    method Drop(key: Key)
      requires Valid() && key in data
      modifies this
      ensures Valid() && (old(Lasting()) ==> Lasting())
      ensures State() == Dropped(old(State()), key) && log == old(log) + [Forget(key)]
    {
      DropKept(State(), key);
      ForgottenCurrent(log, data, key);
      if Lasting() {
        ForgottenKeepsBound(log, State(), capacity, key);
      }
      data := data - {key};
      order := Without(order, key);
      log := log + [Forget(key)];
    }

    // Whether the key was there; it is not afterwards.
    method Remove(key: Key) returns (existed: bool)
      requires Valid()
      modifies this
      ensures Valid() && (old(Lasting()) ==> Lasting())
      ensures existed == (key in old(data)) && data == old(data) - {key}
      ensures State() == if existed then Dropped(old(State()), key) else old(State())
      ensures log == if existed then old(log) + [Forget(key)] else old(log)
    {
      existed := key in data;
      if existed {
        Drop(key);
      }
    }

    method Clear()
      requires Valid()
      modifies this
      ensures Valid() && Lasting() && data == map[] && order == [] && log == old(log) + [ForgetAll]
    {
      NothingHeld(log, capacity);
      data, order, log := map[], [], log + [ForgetAll];
    }

    // Exactly the keys that Get finds at this time, in the order of the dictionary.
    method Keys(now: real) returns (r: seq<Key>)
      requires Valid()
      ensures NoDup(r) && r == Filter(order, Live(data, ttl, now))
      ensures forall k {:trigger k in data} :: k in r <==> k in data && Fresh(data[k], ttl, now)
    {
      r := LiveKeys(State(), ttl, now);
    }
  }

  // A key is found exactly while it is held and fresh, with the value last written to
  // it; when it is not found, it is not held any more.
  ghost predicate Looked<V>(was: Region<V>, log: seq<Op<V>>, key: Key, ttl: Option<real>, now: real, r: Option<V>,
      after: Region<V>, log': seq<Op<V>>)
  {
    && (r.Some? <==> key in was.data && Fresh(was.data[key], ttl, now))
    && (r.Some? ==> Latest(log, key).Some? && Latest(log, key).value.value == r.value)
    && if key in was.data && r.None? then after == Dropped(was, key) && log' == log + [Forget(key)]
       else after == was && log' == log
  }

  // A key that is not found was not written since it was last removed, has expired,
  // or at least as many other keys as the region has room for were written since.
  ghost predicate GoneFor<V>(log: seq<Op<V>>, key: Key, capacity: int, ttl: Option<real>, now: real) {
    || Latest(log, key).None?
    || !Fresh(Latest(log, key).value, ttl, now)
    || |Since(log, key)| >= capacity
  }
}
