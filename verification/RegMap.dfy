/** The register cache in front of a codec device: a linked list of register values, the
  * three mode flags, and the operations that keep list and device in step.
  */
module RegMap {
  import opened Options
  import opened Runs

  /** A 32-bit register value. */
  datatype Word = Word(bits: bv32)

  const EINVAL: int := 22
  const EBUSY: int := 16

  /** What the driver says about its registers. */
  datatype Config = Config(writeable: nat -> bool, readable: nat -> bool, isVolatile: nat -> bool)

  /** The hardware behind the map. `faults` decides how its next accesses end: 0, or nothing
    * left, is success and any other number is reported, negated, as the error code.
    */
  datatype Device = Device(regs: map<nat, Word>, faults: seq<nat>)

  function Value(dev: Device, reg: nat): Word {
    if reg in dev.regs then dev.regs[reg] else Word(0)
  }

  function Used(dev: Device): Device {
    if dev.faults == [] then dev else dev.(faults := dev.faults[1..])
  }

  function Fault(dev: Device): (err: int)
    ensures err <= 0
  {
    if dev.faults == [] then 0 else -(dev.faults[0] as int)
  }

  function SetReg(dev: Device, reg: nat, val: Word): (dev': Device)
    ensures dev'.faults == dev.faults
    ensures forall r :: Value(dev', r) == if r == reg then val else Value(dev, r)
  {
    dev.(regs := dev.regs[reg := val])
  }

  function RegWrite(dev: Device, reg: nat, val: Word): (Device, int) {
    if Fault(dev) == 0 then (SetReg(Used(dev), reg, val), 0) else (Used(dev), Fault(dev))
  }

  datatype Entry = Entry(reg: nat, val: Word)

  datatype Map = Map(config: Config, cache: seq<Entry>, dirty: bool, cacheOnly: bool, bypass: bool, dev: Device)

  // ---- The operations on the state ----

  function FindFrom(cache: seq<Entry>, reg: nat, i: nat): (r: Option<nat>)
    requires i <= |cache|
    ensures r.Some? ==> i <= r.value < |cache| && cache[r.value].reg == reg
    ensures r.Some? ==> forall k :: i <= k < r.value ==> cache[k].reg != reg
    ensures r.None? ==> forall k :: i <= k < |cache| ==> cache[k].reg != reg
    decreases |cache| - i
  {
    if i == |cache| then None
    else if cache[i].reg == reg then Some(i)
    else FindFrom(cache, reg, i + 1)
  }

  /** The cached value of a register. */
  function Lookup(cache: seq<Entry>, reg: nat): Option<Word> {
    match FindFrom(cache, reg, 0)
    case None => None
    case Some(i) => Some(cache[i].val)
  }

  function CacheWrite(cache: seq<Entry>, reg: nat, val: Word): seq<Entry> {
    match FindFrom(cache, reg, 0)
    case None => cache + [Entry(reg, val)]
    case Some(i) => cache[i := Entry(reg, val)]
  }

  /** A value that reached the device, or would have, enters the cache unless that is bypassed
    * or the register is volatile.
    */
  function Record(m: Map, reg: nat, val: Word): Map {
    if m.bypass || m.config.isVolatile(reg) then m else m.(cache := CacheWrite(m.cache, reg, val))
  }

  function Write(m: Map, reg: nat, val: Word): (Map, int) {
    if !m.config.writeable(reg) then (m, -EINVAL)
    else if m.cacheOnly then (Record(m, reg, val), 0)
    else
      var (dev, err) := RegWrite(m.dev, reg, val);
      (if err == 0 then Record(m.(dev := dev), reg, val) else m.(dev := dev), err)
  }

  /** `None` when the caller's buffer is left alone. */
  function Read(m: Map, reg: nat): (Map, int, Option<Word>) {
    if !m.config.readable(reg) then (m, -EINVAL, None)
    else if !m.bypass && Lookup(m.cache, reg).Some? then (m, 0, Lookup(m.cache, reg))
    else if m.cacheOnly then (m, -EBUSY, None)
    else if Fault(m.dev) != 0 then (m.(dev := Used(m.dev)), Fault(m.dev), None)
    else (Record(m.(dev := Used(m.dev)), reg, Value(m.dev, reg)), 0, Some(Value(m.dev, reg)))
  }

  /** The registers a sync writes: all the writeable ones, or those in a range. */
  predicate Selected(config: Config, range: Option<(nat, nat)>, reg: nat) {
    (range.Some? ==> range.value.0 <= reg <= range.value.1) && config.writeable(reg)
  }

  /** Writing back the entries from position `i` on, up to the first failure. */
  function WriteBack(config: Config, range: Option<(nat, nat)>, cache: seq<Entry>, i: nat, dev: Device): (Device, int)
    requires i <= |cache|
    decreases |cache| - i
  {
    if i == |cache| then (dev, 0)
    else if !Selected(config, range, cache[i].reg) then WriteBack(config, range, cache, i + 1, dev)
    else
      var (dev', err) := RegWrite(dev, cache[i].reg, cache[i].val);
      if err < 0 then (dev', err) else WriteBack(config, range, cache, i + 1, dev')
  }

  function Sync(m: Map): (Map, int) {
    if !m.dirty then (m, 0)
    else
      var (dev, err) := WriteBack(m.config, None, m.cache, 0, m.dev);
      (m.(dev := dev, dirty := err < 0), err)
  }

  function SyncRegion(m: Map, min: nat, max: nat): (Map, int) {
    if !m.dirty then (m, 0)
    else
      var (dev, err) := WriteBack(m.config, Some((min, max)), m.cache, 0, m.dev);
      (m.(dev := dev), err)
  }

  function Merge(orig: Word, mask: Word, val: Word): Word {
    Word((orig.bits & !mask.bits) | (val.bits & mask.bits))
  }

  function UpdateBits(m: Map, reg: nat, mask: Word, val: Word): (Map, int, bool) {
    if Fault(m.dev) != 0 then (m.(dev := Used(m.dev)), Fault(m.dev), false)
    else
      var orig := Value(m.dev, reg);
      var tmp := Merge(orig, mask, val);
      if tmp == orig then (m.(dev := Used(m.dev)), 0, false)
      else
        var (dev, err) := RegWrite(Used(m.dev), reg, tmp);
        (m.(dev := dev), err, err == 0)
  }

  // ---- The linked structure ----

  class RegVal {
    var reg: nat
    var val: Word
    var next: RegVal?

    constructor (reg: nat, val: Word)
      ensures this.reg == reg && this.val == val && next == null
    {
      this.reg, this.val, this.next := reg, val, null;
    }
  }

  class Regmap {
    const config: Config
    var cacheDirty: bool
    var cacheOnly: bool
    var cacheBypass: bool
    var val: RegVal?
    var valLast: RegVal?
    var dev: Device
    ghost var cells: seq<RegVal>
    ghost var entries: seq<Entry>

    /** `cells` is the list from `val` to its end, `valLast` its last cell, and `entries` what
      * the cells hold.
      */
    ghost predicate Valid()
      reads this`val, this`valLast, this`cells, this`entries, cells
    {
      && (forall i, j :: 0 <= i < j < |cells| ==> cells[i] != cells[j])
      && val == Cell(0)
      && (cells != [] ==> valLast == cells[|cells| - 1])
      && (forall i :: 0 <= i < |cells| ==> cells[i].next == Cell(i + 1))
      && |entries| == |cells|
      && (forall i :: 0 <= i < |cells| ==> cells[i].reg == entries[i].reg && cells[i].val == entries[i].val)
    }

    /** The cell at a position of the list, null past its end. */
    ghost function Cell(i: nat): RegVal?
      reads this`cells
    {
      if i < |cells| then cells[i] else null
    }

    ghost function View(): Map
      reads this
    {
      Map(config, entries, cacheDirty, cacheOnly, cacheBypass, dev)
    }

    constructor (config: Config, dev: Device)
      ensures Valid() && fresh(cells) && View() == Map(config, [], false, false, false, dev)
    {
      this.config, this.dev := config, dev;
      cacheDirty, cacheOnly, cacheBypass := false, false, false;
      val, valLast, cells, entries := null, null, [], [];
    }

    method CacheFindReg(reg: nat) returns (vp: RegVal?)
      requires Valid()
      ensures vp == null <==> FindFrom(entries, reg, 0).None?
      ensures vp != null ==> vp == cells[FindFrom(entries, reg, 0).value]
    {
      vp := val;
      ghost var i := 0;
      while vp != null
        invariant i <= |cells|
        invariant vp == Cell(i)
        invariant FindFrom(entries, reg, 0) == FindFrom(entries, reg, i)
        decreases |cells| - i
      {
        if vp.reg == reg {
          return;
        }
        vp, i := vp.next, i + 1;
      }
    }

    method CacheReadReg(reg: nat) returns (val: Option<Word>)
      requires Valid()
      ensures val == Lookup(entries, reg)
    {
      var vp := CacheFindReg(reg);
      val := if vp == null then None else Some(vp.val);
    }

    method CacheWriteReg(reg: nat, v: Word)
      requires Valid()
      modifies this`val, this`valLast, this`cells, this`entries, cells
      ensures Valid() && forall c :: c in cells ==> c in old(cells) || fresh(c)
      ensures entries == CacheWrite(old(entries), reg, v)
    {
      var vp := CacheFindReg(reg);
      if vp != null {
        CacheUpdate(vp, v, FindFrom(entries, reg, 0).value);
      } else {
        CacheAppend(reg, v);
      }
    }

    method CacheUpdate(vp: RegVal, v: Word, ghost i: nat)
      requires Valid() && i < |cells| && cells[i] == vp
      modifies this`entries, vp`val
      ensures Valid() && entries == old(entries)[i := Entry(vp.reg, v)]
    {
      vp.val := v;
      entries := entries[i := Entry(vp.reg, v)];
    }

    /** The new cell goes behind the last one, or becomes the first. */
    method CacheAppend(reg: nat, v: Word)
      requires Valid()
      modifies this`val, this`valLast, this`cells, this`entries, cells
      ensures Valid() && forall c :: c in cells ==> c in old(cells) || fresh(c)
      ensures entries == old(entries) + [Entry(reg, v)]
    {
      var vp := new RegVal(reg, v);
      if val == null {
        val := vp;
      } else {
        valLast.next := vp;
      }
      valLast := vp;
      cells, entries := cells + [vp], entries + [Entry(reg, v)];
    }

    method DeviceWrite(reg: nat, v: Word) returns (err: int)
      modifies this`dev
      ensures (dev, err) == RegWrite(old(dev), reg, v)
    {
      err := Fault(dev);
      dev := if err == 0 then SetReg(Used(dev), reg, v) else Used(dev);
    }

    /** The end of both accesses: unless bypassed or volatile, the value enters the cache. */
    method Store(reg: nat, v: Word)
      requires Valid()
      modifies this`val, this`valLast, this`cells, this`entries, cells
      ensures Valid() && forall c :: c in cells ==> c in old(cells) || fresh(c)
      ensures View() == Record(old(View()), reg, v)
    {
      if !cacheBypass && !config.isVolatile(reg) {
        CacheWriteReg(reg, v);
      }
    }

    method RegmapWrite(reg: nat, v: Word) returns (err: int)
      requires Valid()
      modifies this, cells
      ensures Valid() && forall c :: c in cells ==> c in old(cells) || fresh(c)
      ensures var r := Write(old(View()), reg, v); View() == r.0 && err == r.1
    {
      if !config.writeable(reg) {
        return -EINVAL;
      }
      if cacheOnly {
        err := 0;
      } else {
        err := DeviceWrite(reg, v);
      }
      if err == 0 {
        Store(reg, v);
      }
    }

    method RegmapRead(reg: nat) returns (err: int, v: Option<Word>)
      requires Valid()
      modifies this, cells
      ensures Valid() && forall c :: c in cells ==> c in old(cells) || fresh(c)
      ensures var r := Read(old(View()), reg); View() == r.0 && err == r.1 && v == r.2
    {
      if !config.readable(reg) {
        return -EINVAL, None;
      }
      if !cacheBypass {
        v := CacheReadReg(reg);
        if v.Some? {
          return 0, v;
        }
      }
      if cacheOnly {
        return -EBUSY, None;
      }
      err := Fault(dev);
      v := if err == 0 then Some(Value(dev, reg)) else None;
      dev := Used(dev);
      if err == 0 {
        Store(reg, v.value);
      }
    }

    /** Writes one cell of the list back. */
    method SyncCell(vp: RegVal, ghost i: nat, ghost range: Option<(nat, nat)>) returns (err: int)
      requires Valid() && i < |cells| && vp == cells[i] && Selected(config, range, vp.reg)
      modifies this`dev
      ensures Valid() && err <= 0
      ensures WriteBack(config, range, entries, i, old(dev))
           == if err < 0 then (dev, err) else WriteBack(config, range, entries, i + 1, dev)
    {
      err := DeviceWrite(vp.reg, vp.val);
    }

    method RegcacheSync() returns (err: int)
      requires Valid()
      modifies this`dev, this`cacheDirty
      ensures Valid() && (View(), err) == Sync(old(View()))
    {
      if !cacheDirty {
        return 0;
      }
      var vp := val;
      ghost var i := 0;
      while vp != null
        invariant i <= |cells| && Valid() && cacheDirty
        invariant vp == Cell(i)
        invariant WriteBack(config, None, entries, 0, old(dev)) == WriteBack(config, None, entries, i, dev)
        decreases |cells| - i
      {
        if config.writeable(vp.reg) {
          err := SyncCell(vp, i, None);
          if err < 0 {
            return;
          }
        }
        vp, i := vp.next, i + 1;
      }
      cacheDirty := false;
      return 0;
    }

    method RegcacheSyncRegion(min: nat, max: nat) returns (err: int)
      requires Valid()
      modifies this`dev
      ensures Valid() && (View(), err) == SyncRegion(old(View()), min, max)
    {
      if !cacheDirty {
        return 0;
      }
      ghost var range := Some((min, max));
      var vp := val;
      ghost var i := 0;
      while vp != null
        invariant i <= |cells| && Valid()
        invariant vp == Cell(i)
        invariant WriteBack(config, range, entries, 0, old(dev)) == WriteBack(config, range, entries, i, dev)
        decreases |cells| - i
      {
        if !(vp.reg < min || vp.reg > max) && config.writeable(vp.reg) {
          err := SyncCell(vp, i, range);
          if err < 0 {
            return;
          }
        }
        vp, i := vp.next, i + 1;
      }
      return 0;
    }

    method RegcacheCacheOnly(enable: bool)
      modifies this`cacheOnly
      ensures View() == old(View()).(cacheOnly := enable)
    {
      cacheOnly := enable;
    }

    method RegcacheCacheBypass(enable: bool)
      modifies this`cacheBypass
      ensures View() == old(View()).(bypass := enable)
    {
      cacheBypass := enable;
    }

    method RegcacheMarkDirty()
      modifies this`cacheDirty
      ensures View() == old(View()).(dirty := true)
    {
      cacheDirty := true;
    }

    method RegmapUpdateBitsCheck(reg: nat, mask: Word, v: Word) returns (err: int, change: bool)
      modifies this`dev
      ensures (View(), err, change) == UpdateBits(old(View()), reg, mask, v)
    {
      change := false;
      err := Fault(dev);
      var orig := Value(dev, reg);
      dev := Used(dev);
      if err != 0 {
        return;
      }
      var tmp := Merge(orig, mask, v);
      if tmp != orig {
        err := DeviceWrite(reg, tmp);
        if err == 0 {
          change := true;
        }
      }
    }
  }

  // ---- The cache as a finite map ----

  predicate DistinctRegs(cache: seq<Entry>) {
    forall i, j :: 0 <= i < j < |cache| ==> cache[i].reg != cache[j].reg
  }

  lemma LookupAt(cache: seq<Entry>, k: nat)
    requires DistinctRegs(cache) && k < |cache|
    ensures Lookup(cache, cache[k].reg) == Some(cache[k].val)
  {
    assert FindFrom(cache, cache[k].reg, 0).Some?;
  }

  /** Writing the cache changes the one register and repeats none. */
  lemma CacheWriteLookup(cache: seq<Entry>, reg: nat, val: Word)
    requires DistinctRegs(cache)
    ensures DistinctRegs(CacheWrite(cache, reg, val))
    ensures forall r :: Lookup(CacheWrite(cache, reg, val), r) == if r == reg then Some(val) else Lookup(cache, r)
  {
    var cache' := CacheWrite(cache, reg, val);
    forall r
      ensures Lookup(cache', r) == if r == reg then Some(val) else Lookup(cache, r)
    {
      var f := FindFrom(cache, r, 0);
      if f.Some? {
        assert cache'[f.value].reg == r;
        LookupAt(cache', f.value);
      } else if r == reg {
        LookupAt(cache', |cache|);
      }
    }
  }

  // ---- Suspend and resume ----

  /** Between `dev` and `dev'` exactly the selected registers among `cache[i..n]` were written,
    * each with its cached value.
    */
  ghost predicate Restored(config: Config, range: Option<(nat, nat)>, cache: seq<Entry>, i: nat, n: nat,
                           dev: Device, dev': Device)
    requires i <= n <= |cache|
  {
    && (forall k :: i <= k < n && Selected(config, range, cache[k].reg) ==>
          Value(dev', cache[k].reg) == cache[k].val)
    && (forall r :: (forall k :: i <= k < n && Selected(config, range, cache[k].reg) ==> cache[k].reg != r) ==>
          Value(dev', r) == Value(dev, r))
  }

  /** A write-back covers the list up to its end or up to the first write that fails. */
  lemma {:induction false} WriteBackStops(config: Config, range: Option<(nat, nat)>, cache: seq<Entry>, i: nat,
                                          dev: Device) returns (n: nat)
    requires DistinctRegs(cache) && i <= |cache|
    ensures var (dev', err) := WriteBack(config, range, cache, i, dev);
      && i <= n <= |cache| && err <= 0
      && (err == 0 <==> n == |cache|)
      && (err < 0 ==> Selected(config, range, cache[n].reg))
      && (dev.faults == [] ==> err == 0 && dev'.faults == [])
      && Restored(config, range, cache, i, n, dev, dev')
    decreases |cache| - i
  {
    if i == |cache| {
      n := i;
    } else if !Selected(config, range, cache[i].reg) {
      n := WriteBackStops(config, range, cache, i + 1, dev);
    } else {
      var (dev1, err1) := RegWrite(dev, cache[i].reg, cache[i].val);
      if err1 < 0 {
        n := i;
      } else {
        n := WriteBackStops(config, range, cache, i + 1, dev1);
        var dev' := WriteBack(config, range, cache, i, dev).0;
        assert Value(dev', cache[i].reg) == Value(dev1, cache[i].reg);
      }
    }
  }

  /** Resuming from a device that holds anything at all: a successful sync puts every cached
    * writeable register back, touches no other and clears the dirty mark; a failing one has
    * done so for a prefix of the list and leaves the mark set.
    */
  lemma ResumeRestores(m: Map, lost: Device) returns (n: nat)
    requires DistinctRegs(m.cache)
    ensures var (m', err) := Sync(m.(dev := lost, dirty := true));
      && err <= 0
      && n <= |m.cache| && (err == 0 <==> n == |m.cache|)
      && m' == m.(dev := m'.dev, dirty := err < 0)
      && (err < 0 ==> m.config.writeable(m.cache[n].reg))
      && (lost.faults == [] ==> err == 0)
      && Restored(m.config, None, m.cache, 0, n, lost, m'.dev)
  {
    n := WriteBackStops(m.config, None, m.cache, 0, lost);
  }

  /** After any number of failed attempts, one success completes the restoration. */
  lemma {:induction false} RetryFinishes(m: Map, lost: Device, attempts: nat)
    requires DistinctRegs(m.cache)
    requires var m' := SyncTimes(m.(dev := lost, dirty := true), attempts); Sync(m').1 == 0
    ensures var m' := Sync(SyncTimes(m.(dev := lost, dirty := true), attempts)).0;
      && m' == m.(dev := m'.dev, dirty := false)
      && Restored(m.config, None, m.cache, 0, |m.cache|, lost, m'.dev)
    decreases attempts
  {
    var m0 := m.(dev := lost, dirty := true);
    var n := ResumeRestores(m, lost);
    if attempts > 0 {
      var m1 := Sync(m0).0;
      if Sync(m0).1 == 0 {
        SyncedStays(m1, attempts - 1);
      } else {
        RetryFinishes(m, m1.dev, attempts - 1);
        assert m1 == m.(dev := m1.dev, dirty := true);
        var m' := Sync(SyncTimes(m0, attempts)).0;
        RestoredTwice(m.config, m.cache, n, lost, m1.dev, m'.dev);
      }
    }
  }

  /** The state after that many syncs. */
  function SyncTimes(m: Map, attempts: nat): Map
    decreases attempts
  {
    if attempts == 0 then m else SyncTimes(Sync(m).0, attempts - 1)
  }

  lemma {:induction false} SyncedStays(m: Map, attempts: nat)
    requires !m.dirty
    ensures SyncTimes(m, attempts) == m && Sync(m) == (m, 0)
  {
    if attempts > 0 {
      SyncedStays(m, attempts - 1);
    }
  }

  lemma RestoredTwice(config: Config, cache: seq<Entry>, n: nat, dev: Device, dev1: Device, dev2: Device)
    requires n <= |cache|
    requires Restored(config, None, cache, 0, n, dev, dev1)
    requires Restored(config, None, cache, 0, |cache|, dev1, dev2)
    ensures Restored(config, None, cache, 0, |cache|, dev, dev2)
  {
    forall r | forall k :: 0 <= k < |cache| && Selected(config, None, cache[k].reg) ==> cache[k].reg != r
      ensures Value(dev2, r) == Value(dev, r)
    {
      assert Value(dev2, r) == Value(dev1, r);
    }
  }

  /** The region form does the same within its range and never clears the dirty mark. */
  lemma RegionRestores(m: Map, min: nat, max: nat) returns (n: nat)
    requires DistinctRegs(m.cache)
    ensures var (m', err) := SyncRegion(m, min, max);
      if !m.dirty then m' == m && err == 0
      else
        && err <= 0
        && n <= |m.cache| && (err == 0 <==> n == |m.cache|)
        && m' == m.(dev := m'.dev)
        && (err < 0 ==> min <= m.cache[n].reg <= max && m.config.writeable(m.cache[n].reg))
        && Restored(m.config, Some((min, max)), m.cache, 0, n, m.dev, m'.dev)
  {
    n := WriteBackStops(m.config, Some((min, max)), m.cache, 0, m.dev);
  }

  // ---- Runs ----

  /** What may happen to a map: calls by the driver, and a volatile register changing by itself. */
  datatype Op =
    | OpRead(reg: nat)
    | OpWrite(reg: nat, val: Word)
    | OpSync
    | OpSyncRegion(min: nat, max: nat)
    | OpMarkDirty
    | OpDrift(reg: nat, val: Word)

  /** The new state, the error code and the value read. */
  function Step(m: Map, op: Op): (Map, int, Option<Word>) {
    match op
    case OpRead(reg) => Read(m, reg)
    case OpWrite(reg, val) => var (m', err) := Write(m, reg, val); (m', err, None)
    case OpSync => var (m', err) := Sync(m); (m', err, None)
    case OpSyncRegion(min, max) => var (m', err) := SyncRegion(m, min, max); (m', err, None)
    case OpMarkDirty => (m.(dirty := true), 0, None)
    case OpDrift(reg, val) =>
      if m.config.isVolatile(reg) then (m.(dev := SetReg(m.dev, reg, val)), 0, None) else (m, 0, None)
  }

  function Stepper(): (Map, Op) -> Map {
    (m: Map, op: Op) => Step(m, op).0
  }

  function Run(m: Map, ops: seq<Op>): Map {
    Folded(Stepper(), m, ops)
  }

  /** The cache lists each register once, no volatile one, and agrees with the device. */
  ghost predicate Coherent(m: Map) {
    && DistinctRegs(m.cache)
    && (forall k :: 0 <= k < |m.cache| ==>
          !m.config.isVolatile(m.cache[k].reg) && Value(m.dev, m.cache[k].reg) == m.cache[k].val)
  }

  lemma CoherentLookup(m: Map, reg: nat)
    requires Coherent(m) && Lookup(m.cache, reg).Some?
    ensures !m.config.isVolatile(reg) && Lookup(m.cache, reg) == Some(Value(m.dev, reg))
  {
  }

  /** Coherent but for what the cache says about one register. */
  ghost predicate CoherentBut(m: Map, reg: nat) {
    && DistinctRegs(m.cache)
    && (forall k :: 0 <= k < |m.cache| ==>
          && !m.config.isVolatile(m.cache[k].reg)
          && (m.cache[k].reg != reg ==> Value(m.dev, m.cache[k].reg) == m.cache[k].val))
  }

  lemma RecordCoherent(m: Map, reg: nat, val: Word)
    requires CoherentBut(m, reg) && Value(m.dev, reg) == val && !m.bypass
    ensures Coherent(Record(m, reg, val))
  {
    if !m.config.isVolatile(reg) {
      CacheWriteLookup(m.cache, reg, val);
    }
  }

  lemma StepCoherent(m: Map, op: Op)
    requires Coherent(m) && !m.cacheOnly && !m.bypass
    ensures var m' := Step(m, op).0; Coherent(m') && m'.config == m.config && !m'.cacheOnly && !m'.bypass
  {
    match op
    case OpRead(reg) =>
      RecordCoherent(m.(dev := Used(m.dev)), reg, Value(m.dev, reg));
    case OpWrite(reg, val) =>
      if Fault(m.dev) == 0 {
        RecordCoherent(m.(dev := RegWrite(m.dev, reg, val).0), reg, val);
      }
    case OpSync =>
      var n := WriteBackStops(m.config, None, m.cache, 0, m.dev);
    case OpSyncRegion(min, max) =>
      var n := WriteBackStops(m.config, Some((min, max)), m.cache, 0, m.dev);
    case OpMarkDirty =>
    case OpDrift(reg, val) =>
  }

  /** Safety over whole runs. */
  lemma {:induction false} RunCoherent(m: Map, ops: seq<Op>)
    requires Coherent(m) && !m.cacheOnly && !m.bypass
    ensures var m' := Run(m, ops); Coherent(m') && m'.config == m.config && !m'.cacheOnly && !m'.bypass
    decreases |ops|
  {
    if ops != [] {
      StepCoherent(m, ops[0]);
      RunCoherent(Step(m, ops[0]).0, ops[1..]);
    }
  }

  /** A successful read answers with the device value, whatever accesses failed before. */
  lemma ReadIsCurrent(m: Map, ops: seq<Op>, reg: nat)
    requires Coherent(m) && !m.cacheOnly && !m.bypass
    ensures var m1 := Run(m, ops); var (m', err, v) := Read(m1, reg);
      (err == 0 ==> v == Some(Value(m1.dev, reg))) && (err != 0 ==> v == None)
  {
    RunCoherent(m, ops);
    var m1 := Run(m, ops);
    if Lookup(m1.cache, reg).Some? {
      CoherentLookup(m1, reg);
    }
  }

  /** A sync cannot write registers that are read-only: after a successful resume the map is
    * coherent exactly when the device came back with the cached values of those.
    */
  lemma ResumeCoherentExactly(m: Map, lost: Device)
    requires Coherent(m) && Sync(m.(dev := lost, dirty := true)).1 == 0
    ensures Coherent(Sync(m.(dev := lost, dirty := true)).0)
      <==> forall k :: 0 <= k < |m.cache| && !m.config.writeable(m.cache[k].reg) ==>
             Value(lost, m.cache[k].reg) == m.cache[k].val
  {
    var n := ResumeRestores(m, lost);
    var dev' := Sync(m.(dev := lost, dirty := true)).0.dev;
    forall k | 0 <= k < |m.cache|
      ensures Value(dev', m.cache[k].reg)
           == if m.config.writeable(m.cache[k].reg) then m.cache[k].val else Value(lost, m.cache[k].reg)
    {
      assert Selected(m.config, None, m.cache[k].reg) == m.config.writeable(m.cache[k].reg);
    }
  }

  /** An uncached map on the same device. */
  ghost predicate Uncached(m: Map, u: Map) {
    && u.config == m.config && u.bypass && !u.cacheOnly && u.cache == []
    && m.dev.faults == [] && u.dev.faults == []
    && forall r :: Value(u.dev, r) == Value(m.dev, r)
  }

  lemma StepSimulates(m: Map, u: Map, op: Op)
    requires Coherent(m) && !m.cacheOnly && !m.bypass && Uncached(m, u)
    ensures var (m', err, v), (u', err', v') := Step(m, op), Step(u, op);
      err == err' && v == v' && Uncached(m', u')
  {
    match op
    case OpRead(reg) =>
      if Lookup(m.cache, reg).Some? {
        CoherentLookup(m, reg);
      }
    case OpWrite(reg, val) =>
    case OpSync =>
      var n := WriteBackStops(m.config, None, m.cache, 0, m.dev);
    case OpSyncRegion(min, max) =>
      var n := WriteBackStops(m.config, Some((min, max)), m.cache, 0, m.dev);
    case OpMarkDirty =>
    case OpDrift(reg, val) =>
  }

  /** The error codes and values that the caller of a run sees. */
  function Answers(m: Map, ops: seq<Op>): seq<(int, Option<Word>)>
    decreases |ops|
  {
    if ops == [] then []
    else var (m', err, v) := Step(m, ops[0]); [(err, v)] + Answers(m', ops[1..])
  }

  /** Transparency: on a device whose accesses succeed, no run can tell a cached map from an
    * uncached one, and both leave the device with the same register values.
    */
  lemma {:induction false} CacheIsTransparent(m: Map, u: Map, ops: seq<Op>)
    requires Coherent(m) && !m.cacheOnly && !m.bypass && Uncached(m, u)
    ensures Answers(m, ops) == Answers(u, ops)
    ensures Uncached(Run(m, ops), Run(u, ops))
    decreases |ops|
  {
    if ops != [] {
      StepSimulates(m, u, ops[0]);
      StepCoherent(m, ops[0]);
      CacheIsTransparent(Step(m, ops[0]).0, Step(u, ops[0]).0, ops[1..]);
    }
  }

  // ---- Cache-only mode ----

  /** The last value that a run writes to `reg`. */
  function LastWrite(config: Config, ops: seq<Op>, reg: nat): Option<Word>
    decreases |ops|
  {
    if ops == [] then None
    else
      var op := ops[|ops| - 1];
      if op.OpWrite? && op.reg == reg && config.writeable(reg) && !config.isVolatile(reg) then Some(op.val)
      else LastWrite(config, ops[..|ops| - 1], reg)
  }

  /** While the map is cache-only, reads and writes never reach the device; the cache takes the
    * last value written to each register and keeps the rest.
    */
  lemma {:induction false} CacheOnlyRun(m: Map, ops: seq<Op>)
    requires DistinctRegs(m.cache) && m.cacheOnly && !m.bypass
    requires forall k :: 0 <= k < |ops| ==> ops[k].OpRead? || ops[k].OpWrite?
    ensures var m' := Run(m, ops);
      && m' == m.(cache := m'.cache) && DistinctRegs(m'.cache)
      && forall r :: Lookup(m'.cache, r)
           == match LastWrite(m.config, ops, r) case Some(v) => Some(v) case None => Lookup(m.cache, r)
    decreases |ops|
  {
    if ops != [] {
      var op, rest := ops[|ops| - 1], ops[..|ops| - 1];
      assert ops == rest + [op];
      FoldedSnoc(Stepper(), m, rest, op);
      CacheOnlyRun(m, rest);
      if op.OpWrite? {
        CacheWriteLookup(Run(m, rest).cache, op.reg, op.val);
      }
    }
  }

  /** The whole cycle: go cache-only, run, lose the device, come back, sync. If the sync succeeds,
    * every writeable register ends with the last value written while suspended, else the value
    * cached before.
    */
  lemma SuspendResumeCycle(m: Map, ops: seq<Op>, lost: Device, reg: nat)
    requires DistinctRegs(m.cache) && !m.bypass && m.config.writeable(reg)
    requires forall k :: 0 <= k < |ops| ==> ops[k].OpRead? || ops[k].OpWrite?
    ensures var asleep := Run(m.(cacheOnly := true), ops);
      var (m', err) := Sync(asleep.(cacheOnly := false, dirty := true, dev := lost));
      && (lost.faults == [] ==> err == 0) && (m'.dirty <==> err != 0)
      && (err == 0 ==> Value(m'.dev, reg) == match LastWrite(m.config, ops, reg)
            case Some(v) => v
            case None => (match Lookup(m.cache, reg) case Some(v) => v case None => Value(lost, reg)))
  {
    CacheOnlyRun(m.(cacheOnly := true), ops);
    var asleep := Run(m.(cacheOnly := true), ops);
    var n := ResumeRestores(asleep.(cacheOnly := false), lost);
    var found := FindFrom(asleep.cache, reg, 0);
    if found.Some? {
      assert Selected(m.config, None, asleep.cache[found.value].reg);
    }
  }

  // ---- A plain register file ----

  lemma StepOnDevice(m: Map, op: Op, reg: nat)
    requires Coherent(m) && !m.cacheOnly && !m.bypass && m.dev.faults == [] && !m.config.isVolatile(reg)
    ensures var dev := Step(m, op).0.dev;
      && dev.faults == []
      && Value(dev, reg)
         == if op.OpWrite? && op.reg == reg && m.config.writeable(reg) then op.val else Value(m.dev, reg)
  {
    match op
    case OpRead(_) =>
    case OpWrite(_, _) =>
    case OpSync =>
      var n := WriteBackStops(m.config, None, m.cache, 0, m.dev);
    case OpSyncRegion(min, max) =>
      var n := WriteBackStops(m.config, Some((min, max)), m.cache, 0, m.dev);
    case OpMarkDirty =>
    case OpDrift(_, _) =>
  }

  /** Behind the cache the device is a plain register file: a register holds the last value that a
    * run wrote to it, and no sync or read ever changes one.
    */
  lemma {:induction false} RunOnDevice(m: Map, ops: seq<Op>, reg: nat)
    requires Coherent(m) && !m.cacheOnly && !m.bypass && m.dev.faults == [] && !m.config.isVolatile(reg)
    ensures var dev := Run(m, ops).dev;
      && dev.faults == []
      && Value(dev, reg) == match LastWrite(m.config, ops, reg) case Some(v) => v case None => Value(m.dev, reg)
    decreases |ops|
  {
    if ops != [] {
      var op, rest := ops[|ops| - 1], ops[..|ops| - 1];
      assert ops == rest + [op];
      FoldedSnoc(Stepper(), m, rest, op);
      RunOnDevice(m, rest, reg);
      RunCoherent(m, rest);
      StepOnDevice(Run(m, rest), op, reg);
    }
  }

  // ---- Updating bits around the cache ----

  /** The merged word has the masked bits of `val` and the other bits of `orig` ... */
  lemma MergeBits(orig: Word, mask: Word, val: Word)
    ensures Merge(orig, mask, val).bits & mask.bits == val.bits & mask.bits
    ensures Merge(orig, mask, val).bits & !mask.bits == orig.bits & !mask.bits
  {
  }

  /** ... and is the only such word. */
  lemma MergeUnique(orig: Word, mask: Word, val: Word, w: Word)
    requires w.bits & mask.bits == val.bits & mask.bits && w.bits & !mask.bits == orig.bits & !mask.bits
    ensures w == Merge(orig, mask, val)
  {
    assert w.bits == (w.bits & mask.bits) | (w.bits & !mask.bits);
  }

  /** On success the register holds the merged word, no other register moves, and the change flag
    * tells whether anything was written.
    */
  lemma UpdateBitsEffect(m: Map, reg: nat, mask: Word, val: Word, r: nat)
    ensures var (m', err, change) := UpdateBits(m, reg, mask, val);
      && m' == m.(dev := m'.dev) && err <= 0
      && (m.dev.faults == [] ==> err == 0)
      && Value(m'.dev, r) == (if r == reg && err == 0 then Merge(Value(m.dev, r), mask, val) else Value(m.dev, r))
      && (change <==> Value(m'.dev, reg) != Value(m.dev, reg))
  {
    if Fault(m.dev) == 0 {
      var tmp := Merge(Value(m.dev, reg), mask, val);
      if tmp != Value(m.dev, reg) {
        var (dev, err) := RegWrite(Used(m.dev), reg, tmp);
        assert Value(dev, reg) == if err == 0 then tmp else Value(m.dev, reg);
      }
    }
  }

  /** The update goes round the cache: it keeps the two in agreement exactly when it fails or changes
    * nothing, or the register is not cached.
    */
  lemma UpdateBitsCoherence(m: Map, reg: nat, mask: Word, val: Word)
    requires Coherent(m)
    ensures Coherent(UpdateBits(m, reg, mask, val).0)
      <==> || Lookup(m.cache, reg).None? || Merge(Value(m.dev, reg), mask, val) == Value(m.dev, reg)
           || Fault(m.dev) != 0 || Fault(Used(m.dev)) != 0
  {
    var m' := UpdateBits(m, reg, mask, val).0;
    UpdateBitsEffect(m, reg, mask, val, reg);
    forall r | r != reg
      ensures Value(m'.dev, r) == Value(m.dev, r)
    {
      UpdateBitsEffect(m, reg, mask, val, r);
    }
    OneRegisterMoved(m, m'.dev, reg);
  }

  lemma OneRegisterMoved(m: Map, dev: Device, reg: nat)
    requires Coherent(m) && forall r :: r != reg ==> Value(dev, r) == Value(m.dev, r)
    ensures Coherent(m.(dev := dev)) <==> Lookup(m.cache, reg).None? || Value(dev, reg) == Value(m.dev, reg)
  {
  }
}
