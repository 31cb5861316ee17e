// LayeredSharedMemory (src/cadgenesis/agents/shared_memory.py): named regions.
module SharedMemories {
  import opened Results
  import opened Seqs
  import opened MemoryRuns
  import opened MemoryRegions

  // What set, get, remove and clear raise for a region that does not exist.
  datatype MemoryError = UnknownRegion(name: Key) | RegionExists(name: Key) | BadCapacity

  // Nothing was ever written to the region.
  ghost predicate Empty<V>(region: MemoryRegion<V>, capacity: int, ttl: Option<real>)
    reads region
  {
    && region.capacity == capacity && region.ttl == ttl
    && region.log == [] && region.data == map[] && region.order == []
  }

  lemma {:induction false} EmptyLasts<V>(region: MemoryRegion<V>, capacity: int, ttl: Option<real>)
    requires Empty(region, capacity, ttl)
    ensures region.Lasting()
  {
    NothingHeld(region.log, capacity);
  }

  class LayeredSharedMemory<V> {
    var regions: map<Key, MemoryRegion<V>>

    ghost predicate Valid()
      reads this, regions.Values
    {
      forall n {:trigger regions[n]} :: n in regions ==> regions[n].Valid() && regions[n].name == n
    }

    constructor ()
      ensures Valid() && regions == map[]
    {
      regions := map[];
    }

    // One empty region for each name.
    static method Create(names: seq<Key>, capacity: int, ttl: Option<real>)
        returns (r: Result<LayeredSharedMemory<V>, MemoryError>)
      ensures r.Ok? <==> capacity >= 1
      ensures r.Ok? ==> fresh(r.value) && r.value.Valid() && r.value.regions.Keys == Elems(names)
      ensures r.Ok? ==> r.value.AllEmpty(capacity, ttl) && fresh(r.value.regions.Values)
      ensures r.Ok? ==> forall n {:trigger r.value.regions[n]} :: n in r.value.regions ==> r.value.regions[n].Lasting()
    {
      if capacity < 1 {
        return Err(BadCapacity);
      }
      var memory := new LayeredSharedMemory<V>();
      memory.AddAll(names, capacity, ttl);
      forall n | n in memory.regions
        ensures memory.regions[n].Lasting()
      {
        EmptyLasts(memory.regions[n], capacity, ttl);
      }
      return Ok(memory);
    }

    // The comprehension over the names.
    method AddAll(names: seq<Key>, capacity: int, ttl: Option<real>)
      requires Valid() && regions == map[]
      modifies this
      ensures Valid() && AllEmpty(capacity, ttl) && regions.Keys == Elems(names) && fresh(regions.Values)
    {
      for i := 0 to |names|
        invariant Filled(names, i, capacity, ttl) && fresh(regions.Values)
      {
        AddNext(names, i, capacity, ttl);
      }
      assert names[..|names|] == names;
    }

    // The first n names have their regions.
    ghost predicate Filled(names: seq<Key>, n: nat, capacity: int, ttl: Option<real>)
      requires n <= |names|
      reads this, regions.Values
    {
      Valid() && AllEmpty(capacity, ttl) && regions.Keys == Elems(names[..n])
    }

    method AddNext(names: seq<Key>, n: nat, capacity: int, ttl: Option<real>)
      requires n < |names| && Filled(names, n, capacity, ttl)
      modifies this
      ensures Filled(names, n + 1, capacity, ttl) && fresh(regions.Values - old(regions.Values))
    {
      assert names[..n + 1] == names[..n] + [names[n]];
      ElemsSnoc(names[..n], names[n]);
      AddEmpty(names[n], capacity, ttl);
    }

    ghost predicate AllEmpty(capacity: int, ttl: Option<real>)
      reads this, regions.Values
    {
      forall n {:trigger regions[n]} :: n in regions ==> Empty(regions[n], capacity, ttl)
    }

    method AddEmpty(name: Key, capacity: int, ttl: Option<real>)
      requires Valid() && AllEmpty(capacity, ttl)
      modifies this
      ensures Valid() && AllEmpty(capacity, ttl) && regions.Keys == old(regions).Keys + {name}
      ensures fresh(regions.Values - old(regions.Values))
    {
      if name !in regions {
        AddNew(name, capacity, ttl);
      }
    }

    method AddRegion(name: Key, capacity: int, ttl: Option<real>) returns (r: Result<(), MemoryError>)
      requires Valid()
      modifies this
      ensures Valid()
      ensures r.Ok? <==> name !in old(regions)
      ensures r.Err? ==> regions == old(regions)
      ensures r.Ok? ==> name in regions && regions == old(regions)[name := regions[name]] && fresh(regions[name])
      ensures r.Ok? ==> Empty(regions[name], capacity, ttl) && regions[name].Lasting()
    {
      if name in regions {
        return Err(RegionExists(name));
      }
      AddNew(name, capacity, ttl);
      EmptyLasts(regions[name], capacity, ttl);
      return Ok(());
    }

    method AddNew(name: Key, capacity: int, ttl: Option<real>)
      requires Valid() && name !in regions
      modifies this
      ensures Valid() && name in regions && regions == old(regions)[name := regions[name]] && fresh(regions[name])
      ensures Empty(regions[name], capacity, ttl)
    {
      var region := new MemoryRegion(name, capacity, ttl);
      regions := regions[name := region];
    }

    // Only the named region changes.
    method Set(name: Key, key: Key, value: V, now: real) returns (r: Result<(), MemoryError>)
      requires Valid()
      modifies if name in regions then {regions[name]} else {}
      ensures Valid() && (r.Ok? <==> name in regions)
      ensures r.Ok? ==> regions[name].log == old(regions[name].log) + [Write(key, Stored(value, now))]
      ensures r.Ok? ==>
        regions[name].State() == AfterWrite(old(regions[name].State()), regions[name].capacity, key, Stored(value, now))
      ensures r.Ok? && old(regions[name].Lasting()) && Safe(old(regions[name].State()), key, now) ==>
        regions[name].Lasting()
    {
      if name !in regions {
        return Err(UnknownRegion(name));
      }
      regions[name].Set(key, value, now);
      return Ok(());
    }

    method Get(name: Key, key: Key, now: real) returns (r: Result<Option<V>, MemoryError>)
      requires Valid()
      modifies if name in regions then {regions[name]} else {}
      ensures Valid() && (r.Ok? <==> name in regions)
      ensures r.Ok? ==>
        Looked(old(regions[name].State()), old(regions[name].log), key, regions[name].ttl, now, r.value,
          regions[name].State(), regions[name].log)
      ensures r.Ok? && old(regions[name].Lasting()) ==> regions[name].Lasting()
      ensures r.Ok? && r.value.None? && old(regions[name].Lasting()) ==>
        GoneFor(old(regions[name].log), key, regions[name].capacity, regions[name].ttl, now)
    {
      if name !in regions {
        return Err(UnknownRegion(name));
      }
      var v := regions[name].Get(key, now);
      return Ok(v);
    }

    method Remove(name: Key, key: Key) returns (r: Result<bool, MemoryError>)
      requires Valid()
      modifies if name in regions then {regions[name]} else {}
      ensures Valid() && (r.Ok? <==> name in regions)
      ensures r.Ok? ==>
        r.value == (key in old(regions[name].data)) && regions[name].data == old(regions[name].data) - {key}
      ensures r.Ok? ==>
        regions[name].State() ==
        if r.value then Dropped(old(regions[name].State()), key) else old(regions[name].State())
      ensures r.Ok? ==>
        regions[name].log == if r.value then old(regions[name].log) + [Forget(key)] else old(regions[name].log)
      ensures r.Ok? && old(regions[name].Lasting()) ==> regions[name].Lasting()
    {
      if name !in regions {
        return Err(UnknownRegion(name));
      }
      var existed := regions[name].Remove(key);
      return Ok(existed);
    }

    // clear, for one region.
    method Clear(name: Key) returns (r: Result<(), MemoryError>)
      requires Valid()
      modifies if name in regions then {regions[name]} else {}
      ensures Valid() && (r.Ok? <==> name in regions)
      ensures r.Ok? ==> regions[name].State() == Region([], map[]) && regions[name].Lasting()
      ensures r.Ok? ==> regions[name].log == old(regions[name].log) + [ForgetAll]
    {
      if name !in regions {
        return Err(UnknownRegion(name));
      }
      regions[name].Clear();
      return Ok(());
    }

    method Keys(name: Key, now: real) returns (r: Result<seq<Key>, MemoryError>)
      requires Valid()
      ensures r.Ok? <==> name in regions
      ensures r.Ok? ==>
        NoDup(r.value) && r.value == Filter(regions[name].order, Live(regions[name].data, regions[name].ttl, now))
      ensures r.Ok? ==> forall k {:trigger k in regions[name].data} :: k in r.value <==>
        k in regions[name].data && Fresh(regions[name].data[k], regions[name].ttl, now)
    {
      if name !in regions {
        return Err(UnknownRegion(name));
      }
      var keys := regions[name].Keys(now);
      return Ok(keys);
    }
  }
}
