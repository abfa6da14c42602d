/** The register cache on registers and values: what each access does, and what a sync restores. */
module CacheLaws {
  import opened Options
  import opened RegMap

  // ---- Restoring ----

  /** A sync of a range: exactly the cached writeable registers from `min` to `max`, both included, get
    * their cached values, all of them or those up to the first that fails.
    */
  lemma RegionOnRegisters(m: Map, min: nat, max: nat) returns (n: nat)
    requires DistinctRegs(m.cache) && m.dirty
    ensures var (m', err) := SyncRegion(m, min, max);
      && m' == m.(dev := m'.dev) && err <= 0 && n <= |m.cache| && (err == 0 <==> n == |m.cache|)
      && (err < 0 ==> min <= m.cache[n].reg && m.cache[n].reg <= max && m.config.writeable(m.cache[n].reg))
      && (m.dev.faults == [] ==> err == 0)
      && (forall k :: 0 <= k < n ==> var reg := m.cache[k].reg;
            min <= reg && reg <= max && m.config.writeable(reg) ==> Value(m'.dev, reg) == m.cache[k].val)
      && (forall r: nat ::
            (forall k :: 0 <= k < n && m.cache[k].reg == r ==> !(min <= r && r <= max && m.config.writeable(r)))
            ==> Value(m'.dev, r) == Value(m.dev, r))
  {
    n := WriteBackStops(m.config, Some((min, max)), m.cache, 0, m.dev);
    var dev' := SyncRegion(m, min, max).0.dev;
    forall r: nat | forall k :: 0 <= k < n && m.cache[k].reg == r ==> !(min <= r && r <= max && m.config.writeable(r))
      ensures Value(dev', r) == Value(m.dev, r)
    {
      assert forall k :: 0 <= k < n && Selected(m.config, Some((min, max)), m.cache[k].reg) ==> m.cache[k].reg != r;
    }
  }

  /** A sync of everything. */
  lemma SyncOnRegisters(m: Map) returns (n: nat)
    requires DistinctRegs(m.cache) && m.dirty
    ensures var (m', err) := Sync(m);
      && m' == m.(dev := m'.dev, dirty := err < 0) && err <= 0 && n <= |m.cache| && (err == 0 <==> n == |m.cache|)
      && (err < 0 ==> m.config.writeable(m.cache[n].reg))
      && (m.dev.faults == [] ==> err == 0)
      && (forall k :: 0 <= k < n && m.config.writeable(m.cache[k].reg)
            ==> Value(m'.dev, m.cache[k].reg) == m.cache[k].val)
      && (forall r: nat :: (forall k :: 0 <= k < n && m.cache[k].reg == r ==> !m.config.writeable(r))
            ==> Value(m'.dev, r) == Value(m.dev, r))
  {
    n := WriteBackStops(m.config, None, m.cache, 0, m.dev);
    var dev' := Sync(m).0.dev;
    forall r: nat | forall k :: 0 <= k < n && m.cache[k].reg == r ==> !m.config.writeable(r)
      ensures Value(dev', r) == Value(m.dev, r)
    {
      assert forall k :: 0 <= k < n && Selected(m.config, None, m.cache[k].reg) ==> m.cache[k].reg != r;
    }
  }

  /** A map that is not marked dirty has nothing to sync. */
  lemma CleanSyncs(m: Map, min: nat, max: nat)
    requires !m.dirty
    ensures Sync(m) == (m, 0) && SyncRegion(m, min, max) == (m, 0)
  {
  }

  // ---- Accesses ----

  /** The cached value of a register is that of its entry. */
  lemma LookupIsEntry(cache: seq<Entry>, reg: nat, val: Word)
    requires DistinctRegs(cache)
    ensures Lookup(cache, reg) == Some(val) <==> exists k :: 0 <= k < |cache| && cache[k] == Entry(reg, val)
    ensures Lookup(cache, reg) == None <==> forall k :: 0 <= k < |cache| ==> cache[k].reg != reg
  {
    var k := FindFrom(cache, reg, 0);
    if k.Some? {
      assert cache[k.value] == Entry(reg, cache[k.value].val);
    }
  }

  /** A write: refused for a register that is not writeable; kept from the device while the map is
    * cache-only; entered in the cache unless that is bypassed, the register volatile or the device
    * refuses.
    */
  lemma WriteOnRegisters(m: Map, reg: nat, val: Word, r: nat)
    requires DistinctRegs(m.cache)
    ensures var (m', err) := Write(m, reg, val);
      && m' == m.(dev := m'.dev, cache := m'.cache) && DistinctRegs(m'.cache)
      && (!m.config.writeable(reg) ==> m' == m && err == -22)
      && (m.config.writeable(reg) && m.cacheOnly ==> m'.dev == m.dev && err == 0)
      && (m.config.writeable(reg) && !m.cacheOnly && m.dev.faults == [] ==> err == 0)
      && (err == 0 && !m.cacheOnly ==> Value(m'.dev, reg) == val)
      && (err != 0 || r != reg ==> Value(m'.dev, r) == Value(m.dev, r))
      && Lookup(m'.cache, r) == (if r == reg && err == 0 && !m.bypass && !m.config.isVolatile(reg) then Some(val)
                                 else Lookup(m.cache, r))
  {
    CacheWriteLookup(m.cache, reg, val);
  }

  /** A read: refused for a register that is not readable; answered from the cache if that has it and is
    * not bypassed; else by the device, unless the map is cache-only, and then cached as a write is.
    */
  lemma ReadOnRegisters(m: Map, reg: nat, r: nat)
    requires DistinctRegs(m.cache)
    ensures var (m', err, v) := Read(m, reg);
      && m' == m.(dev := m'.dev, cache := m'.cache) && DistinctRegs(m'.cache)
      && Value(m'.dev, r) == Value(m.dev, r) && (err == 0 <==> v.Some?)
      && (!m.config.readable(reg) ==> m' == m && err == -22)
      && (m.config.readable(reg) && !m.bypass && Lookup(m.cache, reg).Some? ==>
            m' == m && err == 0 && v == Lookup(m.cache, reg))
      && (m.config.readable(reg) && (m.bypass || Lookup(m.cache, reg).None?) ==>
            if m.cacheOnly then m' == m && err == -16
            else
              && (m.dev.faults == [] ==> err == 0)
              && (err == 0 ==> v == Some(Value(m.dev, reg)))
              && Lookup(m'.cache, r) == (if r == reg && err == 0 && !m.bypass && !m.config.isVolatile(reg) then v
                                         else Lookup(m.cache, r)))
  {
    CacheWriteLookup(m.cache, reg, Value(m.dev, reg));
  }

  /** On a device that works every readable register can be read, and no other. */
  lemma ReadSucceedsExactly(m: Map, reg: nat)
    requires DistinctRegs(m.cache) && m.dev.faults == [] && !m.cacheOnly
    ensures Read(m, reg).1 == 0 <==> m.config.readable(reg)
    ensures Read(m, reg).1 != 0 ==> Read(m, reg).1 == -22
  {
  }

  /** The steps of a run are the calls of the driver, and a volatile register changing by itself. */
  lemma StepPlainly(m: Map, op: Op)
    ensures Step(m, op) == match op
      case OpRead(reg) => Read(m, reg)
      case OpWrite(reg, val) => (Write(m, reg, val).0, Write(m, reg, val).1, None)
      case OpSync => (Sync(m).0, Sync(m).1, None)
      case OpSyncRegion(min, max) => (SyncRegion(m, min, max).0, SyncRegion(m, min, max).1, None)
      case OpMarkDirty => (m.(dirty := true), 0, None)
      case OpDrift(reg, val) =>
        (if m.config.isVolatile(reg) then m.(dev := m.dev.(regs := m.dev.regs[reg := val])) else m, 0, None)
  {
  }
}
