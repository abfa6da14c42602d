/** The virtual master control: followers keep the values their users asked for, and the
  * hardware behind each of them holds those values attenuated by the master.
  */
module VMaster {
  import opened Runs

  const EINVAL: int := 22
  const ENOENT: int := 2

  datatype Kind = Boolean | Integer | Other

  /** What a control answers to an info request. */
  datatype Info = Info(kind: Kind, count: nat, min: int, max: int)

  /** The channels that a follower record has room for. */
  const CHANNELS: nat := 2

  /** A value buffer that callers pass to the callbacks, as far as a follower record has room. */
  type Buffer = b: seq<int> | |b| == CHANNELS witness [0, 0]

  /** A follower: the driver's control, with its info and the values it holds in hardware, then
    * the copy of that info and the user values. `info.count` is 0 until initialisation. `overrun`
    * tells that a loop has left the slots of `vals`; nothing is known of the record from then on.
    */
  datatype FollowerRec = FollowerRec(
    ctl: Info,
    needUpdate: bool,
    hw: seq<int>,
    info: Info,
    vals: seq<int>,
    overrun: bool)

  /** As many channels as there is room for. */
  function Room(count: nat): (n: nat)
    ensures n <= CHANNELS && n <= count && (count <= CHANNELS ==> n == count)
  {
    if count <= CHANNELS then count else CHANNELS
  }

  predicate Shaped(f: FollowerRec) {
    && |f.hw| == |f.vals| == Room(f.ctl.count)
    && (f.info.count == 0 || f.info.count == f.ctl.count)
  }

  type Follower = f: FollowerRec | Shaped(f)
    witness FollowerRec(Info(Boolean, 0, 0, 0), false, [], Info(Boolean, 0, 0, 0), [], false)

  /** `val` means something once `info.count` is not 0. */
  datatype Master = Master(followers: seq<Follower>, info: Info, val: int)

  // ---- The callbacks on the state ----

  /** After a loop over the channels of `vals`. */
  function Touched(f: Follower): Follower {
    f.(overrun := f.overrun || f.info.count > CHANNELS)
  }

  function Ready(f: Follower): (Follower, int) {
    if f.info.count != 0 then (if f.needUpdate then Touched(f).(vals := f.hw) else f, 0)
    else if f.ctl.count > CHANNELS || f.ctl.kind == Other then
      (f.(info := f.info.(kind := f.ctl.kind, count := f.ctl.count)), -EINVAL)
    else (f.(info := f.ctl, vals := f.hw), 0)
  }

  function Clamp(v: int, min: int, max: int): int {
    if v < min then min else if v > max then max else v
  }

  /** What the hardware gets when the user asks for `v`. */
  function Attenuated(info: Info, masterVal: int, masterMax: int, v: int): int {
    match info.kind
    case Boolean => if masterVal != 0 then v % 2 else 0
    case Integer => Clamp(v + masterVal - masterMax, info.min, info.max)
    case Other => v
  }

  /** The first `n` values attenuated, the rest as they are. */
  function AttenuatedAll(info: Info, masterVal: int, masterMax: int, n: nat, vs: seq<int>): (r: seq<int>)
    ensures |r| == |vs|
    ensures forall ch :: 0 <= ch < |vs| ==>
      r[ch] == if ch < n then Attenuated(info, masterVal, masterMax, vs[ch]) else vs[ch]
  {
    seq(|vs|, ch requires 0 <= ch < |vs| =>
      if ch < n then Attenuated(info, masterVal, masterMax, vs[ch]) else vs[ch])
  }

  function MasterReady(m: Master): (r: (Master, int))
    ensures |r.0.followers| == |m.followers|
  {
    if m.info.count != 0 then (m, 0)
    else if m.followers == [] then (m, -ENOENT)
    else
      var (f, err) := Ready(m.followers[0]);
      var m' := m.(followers := m.followers[0 := f]);
      if err < 0 then (m', err) else (m'.(info := f.info.(count := 1), val := f.info.max), 1)
  }

  function ValueGot(m: Master, i: nat, buf: Buffer): (r: (Master, int, Buffer))
    requires i < |m.followers|
    ensures |r.0.followers| == |m.followers|
  {
    var (f, err) := Ready(m.followers[i]);
    var n := Room(f.info.count);
    if err < 0 then (m.(followers := m.followers[i := f]), err, buf)
    else (m.(followers := m.followers[i := Touched(f)]), 0, f.vals[..n] + buf[n..])
  }

  function ValuePut(m: Master, i: nat, buf: Buffer): (r: (Master, int, Buffer))
    requires i < |m.followers|
    ensures |r.0.followers| == |m.followers|
  {
    var (m', err) := MasterReady(m);
    if err < 0 then (m', err, buf)
    else
      var f := m'.followers[i];
      var buf' := AttenuatedAll(f.info, m'.val, m'.info.max, f.info.count, buf);
      (m'.(followers := m'.followers[i := f.(hw := buf'[..Room(f.ctl.count)])]), 0, buf')
  }

  function UserPut(m: Master, i: nat, buf: Buffer): (r: (Master, int))
    requires i < |m.followers|
    ensures |r.0.followers| == |m.followers|
  {
    var (f, err) := Ready(m.followers[i]);
    var n := Room(f.info.count);
    if err < 0 then (m.(followers := m.followers[i := f]), err)
    else if f.vals[..n] == buf[..n] then (m.(followers := m.followers[i := Touched(f)]), 0)
    else
      var f' := Touched(f).(vals := buf[..n] + f.vals[n..]);
      var (m2, err2, _) := ValuePut(m.(followers := m.followers[i := f']), i, buf);
      (m2, if err2 < 0 then err2 else 1)
  }

  function SyncedOne(m: Master, i: nat, oldVal: int, newVal: int, buf: Buffer): (r: (Master, Buffer))
    requires i < |m.followers|
    ensures |r.0.followers| == |m.followers|
  {
    var (m1, _, buf1) := ValueGot(m.(val := oldVal), i, buf);
    var (m2, _, buf2) := ValuePut(m1.(val := newVal), i, buf1);
    (m2, buf2)
  }

  function SyncTurn(oldVal: int, newVal: int): ((Master, Buffer), nat) -> (Master, Buffer) {
    (s: (Master, Buffer), i: nat) => if i < |s.0.followers| then SyncedOne(s.0, i, oldVal, newVal, s.1) else s
  }

  /** After the first `n` followers of the list. */
  function Synced(m: Master, n: nat, oldVal: int, newVal: int, buf: Buffer): (r: (Master, Buffer))
    requires n <= |m.followers|
    ensures |r.0.followers| == |m.followers|
  {
    SyncedLength(m, n, oldVal, newVal, buf);
    Turns(SyncTurn(oldVal, newVal), (m, buf), n)
  }

  lemma SyncedLength(m: Master, n: nat, oldVal: int, newVal: int, buf: Buffer)
    ensures |Turns(SyncTurn(oldVal, newVal), (m, buf), n).0.followers| == |m.followers|
  {
    var inv := (s: (Master, Buffer), k: nat) => |s.0.followers| == |m.followers|;
    TurnsKeep(SyncTurn(oldVal, newVal), inv, (m, buf), n);
  }

  /** `junk` is what the freshly allocated buffer of the loop holds. */
  function MasterMoved(m: Master, v: int, junk: Buffer): (r: (Master, int))
    ensures |r.0.followers| == |m.followers|
  {
    var (m', err) := MasterReady(m);
    if err < 0 then (m', err)
    else if v == m'.val then (m', 0)
    else (Synced(m', |m.followers|, m'.val, v, junk).0, 1)
  }

  function Resynced(m: Master, junk: Buffer): (r: Master)
    ensures |r.followers| == |m.followers|
  {
    var (m', err) := MasterReady(m);
    if err < 0 then m' else Synced(m', |m.followers|, m'.val, m'.val, junk).0
  }

  // ---- The records ----

  class LinkFollower {
    const ctl: Info
    const needUpdate: bool
    var hw: seq<int>
    var info: Info
    var vals: seq<int>
    var overrun: bool

    ghost function View(): FollowerRec
      reads this
    {
      FollowerRec(ctl, needUpdate, hw, info, vals, overrun)
    }

    constructor (ctl: Info, needUpdate: bool, hw: seq<int>)
      requires |hw| == Room(ctl.count)
      ensures Shaped(View())
      ensures View() == FollowerRec(ctl, needUpdate, hw, Info(Boolean, 0, 0, 0), seq(|hw|, _ => 0), false)
    {
      this.ctl, this.needUpdate, this.hw := ctl, needUpdate, hw;
      info, vals, overrun := Info(Boolean, 0, 0, 0), seq(|hw|, _ => 0), false;
    }

    method FollowerUpdate()
      requires Shaped(View()) && info.count == ctl.count
      modifies this`vals, this`overrun
      ensures View() == Touched(old(View())).(vals := hw)
    {
      for ch := 0 to info.count
        invariant ch <= CHANNELS && overrun == old(overrun)
        invariant |vals| == |hw| && forall k :: 0 <= k < ch ==> vals[k] == hw[k]
      {
        if ch == CHANNELS {
          overrun := true;
          break;
        }
        vals := vals[ch := hw[ch]];
      }
    }

    method FollowerInit() returns (err: int)
      requires Shaped(View())
      modifies this`info, this`vals, this`overrun
      ensures (View(), err) == Ready(old(View()))
    {
      if info.count != 0 {
        if needUpdate {
          FollowerUpdate();
        }
        return 0;
      }
      info := info.(kind := ctl.kind, count := ctl.count);
      if info.count > CHANNELS || (info.kind != Integer && info.kind != Boolean) {
        return -EINVAL;
      }
      info := info.(min := ctl.min, max := ctl.max);
      FollowerUpdate();
      return 0;
    }

    method CopyVals(ucontrol: array<int>)
      requires Shaped(View()) && ucontrol.Length == CHANNELS
      modifies ucontrol, this`overrun
      ensures View() == Touched(old(View()))
      ensures var n := Room(info.count); ucontrol[..] == vals[..n] + old(ucontrol[..])[n..]
    {
      for ch := 0 to info.count
        invariant ch <= CHANNELS && overrun == old(overrun)
        invariant forall k :: 0 <= k < CHANNELS ==> ucontrol[k] == if k < ch then vals[k] else old(ucontrol[k])
      {
        if ch == CHANNELS {
          overrun := true;
          break;
        }
        ucontrol[ch] := vals[ch];
      }
    }

    /** Takes over the values of the buffer, telling whether any of them is new. */
    method StoreVals(ucontrol: array<int>) returns (changed: bool)
      requires Shaped(View()) && ucontrol.Length == CHANNELS
      modifies this`vals, this`overrun
      ensures var n := Room(info.count);
        && View() == Touched(old(View())).(vals := ucontrol[..n] + old(vals)[n..])
        && (changed <==> old(vals)[..n] != ucontrol[..n])
    {
      changed := false;
      for ch := 0 to info.count
        invariant ch <= CHANNELS && |vals| == |hw| && overrun == old(overrun)
        invariant forall k :: 0 <= k < |vals| ==> vals[k] == if k < ch then ucontrol[k] else old(vals)[k]
        invariant changed <==> exists k :: 0 <= k < ch && old(vals)[k] != ucontrol[k]
      {
        if ch == CHANNELS {
          overrun := true;
          break;
        }
        if vals[ch] != ucontrol[ch] {
          changed := true;
          vals := vals[ch := ucontrol[ch]];
        }
      }
      if changed {
        ghost var k :| 0 <= k < Room(info.count) && old(vals)[k] != ucontrol[k];
        assert old(vals)[..Room(info.count)][k] != ucontrol[..Room(info.count)][k];
      }
    }

    /** Attenuates the values of the buffer in place. */
    method Attenuate(ucontrol: array<int>, masterVal: int, masterMax: int)
      requires Shaped(View()) && ucontrol.Length == CHANNELS
      modifies ucontrol
      ensures ucontrol[..] == AttenuatedAll(info, masterVal, masterMax, info.count, old(ucontrol[..]))
    {
      for ch := 0 to Room(info.count)
        invariant forall k :: 0 <= k < CHANNELS ==>
          ucontrol[k] == if k < ch then Attenuated(info, masterVal, masterMax, old(ucontrol[k])) else old(ucontrol[k])
      {
        match info.kind
        case Boolean =>
          ucontrol[ch] := if masterVal != 0 then ucontrol[ch] % 2 else 0;
        case Integer =>
          var vol := ucontrol[ch];
          vol := vol + masterVal - masterMax;
          if vol < info.min {
            vol := info.min;
          } else if vol > info.max {
            vol := info.max;
          }
          ucontrol[ch] := vol;
        case Other =>
      }
    }
  }

  class LinkMaster {
    var followers: seq<LinkFollower>
    var info: Info
    var val: int
    ghost var views: seq<Follower>

    ghost predicate Valid()
      reads this, followers
    {
      && (forall i, j :: 0 <= i < j < |followers| ==> followers[i] != followers[j])
      && |views| == |followers|
      && (forall i :: 0 <= i < |followers| ==> followers[i].View() == views[i])
    }

    ghost function View(): Master
      reads this
    {
      Master(views, info, val)
    }

    constructor ()
      ensures Valid() && View() == Master([], Info(Boolean, 0, 0, 0), 0)
    {
      followers, views, info, val := [], [], Info(Boolean, 0, 0, 0), 0;
    }

    method AddFollower(f: LinkFollower)
      requires Valid() && f !in followers && Shaped(f.View())
      modifies this`followers, this`views
      ensures Valid() && followers == old(followers) + [f]
      ensures View() == old(View()).(followers := old(View()).followers + [f.View()])
    {
      followers, views := followers + [f], views + [f.View()];
    }

    method InitOne(i: nat) returns (err: int)
      requires Valid() && i < |followers|
      modifies this`views, followers[i]
      ensures Valid()
      ensures var r := Ready(old(views)[i]); views == old(views)[i := r.0] && err == r.1
    {
      err := followers[i].FollowerInit();
      views := views[i := followers[i].View()];
    }

    method MasterInit() returns (err: int)
      requires Valid()
      modifies this`views, this`info, this`val, followers
      ensures Valid()
      ensures var r := MasterReady(old(View())); View() == r.0 && err == r.1
    {
      if info.count != 0 {
        return 0;
      }
      if |followers| == 0 {
        return -ENOENT;
      }
      err := InitOne(0);
      if err < 0 {
        return;
      }
      info := followers[0].info;
      info := info.(count := 1);
      val := info.max;
      return 1;
    }

    method FollowerGetVal(i: nat, ucontrol: array<int>) returns (err: int)
      requires Valid() && i < |followers| && ucontrol.Length == CHANNELS
      modifies this`views, followers[i], ucontrol
      ensures Valid()
      ensures var r := ValueGot(old(View()), i, old(ucontrol[..])); View() == r.0 && err == r.1 && ucontrol[..] == r.2
    {
      err := InitOne(i);
      if err < 0 {
        return;
      }
      followers[i].CopyVals(ucontrol);
      views := views[i := followers[i].View()];
      return 0;
    }

    method FollowerPutVal(i: nat, ucontrol: array<int>) returns (err: int)
      requires Valid() && i < |followers| && ucontrol.Length == CHANNELS
      modifies this`views, this`info, this`val, followers, ucontrol
      ensures Valid()
      ensures var r := ValuePut(old(View()), i, old(ucontrol[..])); View() == r.0 && err == r.1 && ucontrol[..] == r.2
    {
      err := MasterInit();
      if err < 0 {
        return;
      }
      Push(i, ucontrol);
      return 0;
    }

    /** The driver's own put callback, on the attenuated values. */
    method Push(i: nat, ucontrol: array<int>)
      requires Valid() && i < |followers| && ucontrol.Length == CHANNELS
      modifies this`views, followers[i], ucontrol
      ensures Valid()
      ensures var f := old(views)[i];
        && ucontrol[..] == AttenuatedAll(f.info, val, info.max, f.info.count, old(ucontrol[..]))
        && views == old(views)[i := f.(hw := ucontrol[..Room(f.ctl.count)])]
    {
      var f: LinkFollower := followers[i];
      f.Attenuate(ucontrol, val, info.max);
      f.hw := ucontrol[..Room(f.ctl.count)];
      views := views[i := f.View()];
    }

    /** The put callback of a follower: new user values are kept, then attenuated. */
    method FollowerPut(i: nat, ucontrol: array<int>) returns (err: int)
      requires Valid() && i < |followers| && ucontrol.Length == CHANNELS
      modifies this`views, this`info, this`val, followers, ucontrol
      ensures Valid()
      ensures var r := UserPut(old(View()), i, old(ucontrol[..])); View() == r.0 && err == r.1
    {
      err := InitOne(i);
      if err < 0 {
        return;
      }
      var changed := StoreOne(i, ucontrol);
      if !changed {
        return 0;
      }
      assert View() == old(View()).(followers := old(views)[i := views[i]]);
      err := FollowerPutVal(i, ucontrol);
      if err < 0 {
        return;
      }
      return 1;
    }

    method StoreOne(i: nat, ucontrol: array<int>) returns (changed: bool)
      requires Valid() && i < |followers| && ucontrol.Length == CHANNELS
      modifies this`views, followers[i]
      ensures Valid()
      ensures var f := old(views)[i]; var n := Room(f.info.count);
        && views == old(views)[i := Touched(f).(vals := ucontrol[..n] + f.vals[n..])]
        && (changed <==> f.vals[..n] != ucontrol[..n])
        && (!changed ==> views == old(views)[i := Touched(f)])
    {
      ghost var f := views[i];
      changed := followers[i].StoreVals(ucontrol);
      assert f.vals == f.vals[..Room(f.info.count)] + f.vals[Room(f.info.count)..];
      views := views[i := followers[i].View()];
    }

    method MasterGet() returns (err: int, v: int)
      requires Valid()
      modifies this`views, this`info, this`val, followers
      ensures Valid()
      ensures var r := MasterReady(old(View()));
        View() == r.0 && err == (if r.1 < 0 then r.1 else 0) && v == r.0.val
    {
      err := MasterInit();
      v := val;
      if err < 0 {
        return;
      }
      err := 0;
    }

    /** One turn of the loop that began at `m` and `buf`. */
    method SyncFollower(i: nat, oldVal: int, newVal: int, uval: array<int>, ghost m: Master, ghost buf: Buffer)
      requires Valid() && i < |followers| == |m.followers| && uval.Length == CHANNELS
      requires (View(), uval[..]) == Synced(m, i, oldVal, newVal, buf)
      modifies this`views, this`info, this`val, followers, uval
      ensures Valid() && (View(), uval[..]) == Synced(m, i + 1, oldVal, newVal, buf)
    {
      ghost var r := Synced(m, i, oldVal, newVal, buf);
      val := oldVal;
      var err := FollowerGetVal(i, uval);
      val := newVal;
      err := FollowerPutVal(i, uval);
      assert (View(), uval[..]) == SyncedOne(r.0, i, oldVal, newVal, r.1);
    }

    /** `uval` is the buffer allocated for the loop; nothing is known about its contents. */
    method SyncFollowers(oldVal: int, newVal: int, uval: array<int>)
      requires Valid() && uval.Length == CHANNELS
      modifies this`views, this`info, this`val, followers, uval
      ensures Valid() && View() == Synced(old(View()), |followers|, oldVal, newVal, old(uval[..])).0
    {
      ghost var m, buf: Buffer := View(), uval[..];
      for i := 0 to |followers|
        invariant Valid() && |m.followers| == |followers|
        invariant (View(), uval[..]) == Synced(m, i, oldVal, newVal, buf)
      {
        SyncFollower(i, oldVal, newVal, uval, m, buf);
      }
    }

    method MasterPut(newVal: int, uval: array<int>) returns (err: int)
      requires Valid() && uval.Length == CHANNELS
      modifies this`views, this`info, this`val, followers, uval
      ensures Valid()
      ensures var r := MasterMoved(old(View()), newVal, old(uval[..])); View() == r.0 && err == r.1
    {
      err := MasterInit();
      if err < 0 {
        return;
      }
      var oldVal := val;
      if newVal == oldVal {
        return 0;
      }
      SyncFollowers(oldVal, newVal, uval);
      return 1;
    }

    method SndCtlSyncVmaster(uval: array<int>)
      requires Valid() && uval.Length == CHANNELS
      modifies this`views, this`info, this`val, followers, uval
      ensures Valid() && View() == Resynced(old(View()), old(uval[..]))
    {
      var err := MasterInit();
      if err < 0 {
        return;
      }
      SyncFollowers(val, val, uval);
    }
  }

  // ---- What a group of followers keeps ----

  predicate GoodCtl(ctl: Info) {
    && ctl.kind != Other && ctl.count <= CHANNELS && ctl.min <= ctl.max
    && (ctl.kind == Boolean ==> ctl.min == 0 && ctl.max == 1)
  }

  /** The followers of a master are alike and supported, and the copies made at initialisation
    * are copies.
    */
  predicate Group(m: Master) {
    && (forall i :: 0 <= i < |m.followers| ==>
          && GoodCtl(m.followers[i].ctl) && !m.followers[i].overrun
          && m.followers[i].ctl.kind == m.followers[0].ctl.kind
          && (m.followers[i].info.count != 0 ==> m.followers[i].info == m.followers[i].ctl))
    && (m.info.count != 0 ==> m.followers != [] && m.info == m.followers[0].ctl.(count := 1))
  }

  /** The full volume of the master, and its value, also before it is initialised. */
  function FullVal(m: Master): int {
    if m.followers == [] then 0 else m.followers[0].ctl.max
  }

  function MasterVal(m: Master): int {
    if m.info.count != 0 then m.val else FullVal(m)
  }

  /** What the user of a follower asked for, also before it is initialised. */
  function UserVals(f: Follower): seq<int> {
    if f.info.count != 0 then f.vals else f.hw
  }

  function HwFor(f: Follower, masterVal: int, fullVal: int, user: seq<int>): seq<int> {
    AttenuatedAll(f.ctl, masterVal, fullVal, |user|, user)
  }

  /** The hardware of every cached follower holds its user values attenuated by the master. */
  ghost predicate Coherent(m: Master) {
    forall i :: 0 <= i < |m.followers| && !m.followers[i].needUpdate ==>
      m.followers[i].hw == HwFor(m.followers[i], MasterVal(m), FullVal(m), UserVals(m.followers[i]))
  }

  /** `f'` is the same control as `f`; `user` and `hw` are its values if it is cached. */
  ghost predicate Becomes(f: Follower, f': Follower, user: seq<int>, hw: seq<int>) {
    f'.ctl == f.ctl && f'.needUpdate == f.needUpdate && (!f.needUpdate ==> UserVals(f') == user && f'.hw == hw)
  }

  /** `m'` differs from `m` in nothing that a user could observe. */
  ghost predicate Alike(m: Master, m': Master) {
    && Group(m') && |m'.followers| == |m.followers| && MasterVal(m') == MasterVal(m)
    && forall i :: 0 <= i < |m.followers| ==>
         Becomes(m.followers[i], m'.followers[i], UserVals(m.followers[i]), m.followers[i].hw)
  }

  lemma ReadyAlike(m: Master, i: nat)
    requires Group(m) && i < |m.followers|
    ensures var (f, err) := Ready(m.followers[i]);
      err == 0 && f.info == f.ctl && (!f.needUpdate ==> f.vals == UserVals(m.followers[i]))
      && Alike(m, m.(followers := m.followers[i := f]))
  {
  }

  lemma MasterReadyAlike(m: Master)
    requires Group(m) && m.followers != []
    ensures var (m', err) := MasterReady(m); err >= 0 && m'.info.count == 1 && Alike(m, m')
  {
    ReadyAlike(m, 0);
  }

  /** The values that a sync attenuates. */
  function SyncBase(f: Follower): seq<int> {
    if f.needUpdate then f.hw else UserVals(f)
  }

  /** What a sync makes of one follower. */
  ghost predicate Resettled(f: Follower, f': Follower, newVal: int, fullVal: int) {
    && Becomes(f, f', UserVals(f), f'.hw)
    && f'.hw == HwFor(f, newVal, fullVal, SyncBase(f))
  }

  lemma SyncedOneEffect(m: Master, i: nat, oldVal: int, newVal: int, buf: Buffer)
    requires Group(m) && m.info.count != 0 && i < |m.followers|
    ensures var m' := SyncedOne(m, i, oldVal, newVal, buf).0;
      && Group(m') && m' == Master(m.followers[i := m'.followers[i]], m.info, newVal)
      && Resettled(m.followers[i], m'.followers[i], newVal, FullVal(m))
  {
    ReadyAlike(m.(val := oldVal), i);
  }

  /** The first `n` followers are resettled, the others untouched. */
  ghost predicate Halfway(m: Master, m': Master, n: nat, newVal: int) {
    && Group(m') && m'.info == m.info && m'.val == (if n == 0 then m.val else newVal)
    && |m'.followers| == |m.followers| && FullVal(m') == FullVal(m)
    && forall j :: 0 <= j < |m.followers| ==>
         if j < n then Resettled(m.followers[j], m'.followers[j], newVal, FullVal(m))
         else m'.followers[j] == m.followers[j]
  }

  lemma HalfwayNext(m: Master, m1: Master, m2: Master, n: nat, newVal: int)
    requires n < |m.followers| && Halfway(m, m1, n, newVal)
    requires Group(m2) && |m2.followers| == |m1.followers|
    requires m2 == Master(m1.followers[n := m2.followers[n]], m1.info, newVal)
    requires Resettled(m1.followers[n], m2.followers[n], newVal, FullVal(m1))
    ensures Halfway(m, m2, n + 1, newVal)
  {
  }

  lemma HalfwayOn(m: Master, m1: Master, n: nat, oldVal: int, newVal: int, buf: Buffer)
    requires m.info.count != 0 && n < |m.followers| && Halfway(m, m1, n, newVal)
    ensures Halfway(m, SyncedOne(m1, n, oldVal, newVal, buf).0, n + 1, newVal)
  {
    SyncedOneEffect(m1, n, oldVal, newVal, buf);
    HalfwayNext(m, m1, SyncedOne(m1, n, oldVal, newVal, buf).0, n, newVal);
  }

  lemma SyncedEffect(m: Master, n: nat, oldVal: int, newVal: int, buf: Buffer)
    requires Group(m) && m.info.count != 0 && n <= |m.followers|
    ensures Halfway(m, Synced(m, n, oldVal, newVal, buf).0, n, newVal)
  {
    var inv := (s: (Master, Buffer), k: nat) => Halfway(m, s.0, k, newVal);
    forall s: (Master, Buffer), k: nat | k < n && inv(s, k)
      ensures inv(SyncTurn(oldVal, newVal)(s, k), k + 1)
    {
      HalfwayOn(m, s.0, k, oldVal, newVal, s.1);
    }
    TurnsKeep(SyncTurn(oldVal, newVal), inv, (m, buf), n);
  }

  lemma ValuePutEffect(m: Master, i: nat, buf: Buffer)
    requires Group(m) && i < |m.followers| && m.followers[i].info.count == m.followers[i].ctl.count
    ensures var (m', err, _) := ValuePut(m, i, buf); var n := m.followers[i].ctl.count;
      && err == 0 && Group(m') && |m'.followers| == |m.followers| && MasterVal(m') == MasterVal(m)
      && forall j :: 0 <= j < |m.followers| ==> var f := m.followers[j];
           Becomes(f, m'.followers[j], UserVals(f),
             if j == i then HwFor(f, MasterVal(m), FullVal(m), buf[..n]) else f.hw)
  {
    MasterReadyAlike(m);
    var m1 := MasterReady(m).0;
    var n := m.followers[i].ctl.count;
    var f := m1.followers[i];
    assert f.info.count == n && (n > 0 ==> f.info == f.ctl);
    assert AttenuatedAll(f.info, m1.val, m1.info.max, f.info.count, buf)[..n]
        == HwFor(f, MasterVal(m), FullVal(m), buf[..n]);
  }

  /** A put by the user of follower `i` changes what that follower holds, and nothing else. */
  lemma PutEffect(m: Master, i: nat, buf: Buffer)
    requires Group(m) && Coherent(m) && i < |m.followers|
    ensures var (m', err) := UserPut(m, i, buf); var user := buf[..m.followers[i].ctl.count];
      && err >= 0 && Group(m') && |m'.followers| == |m.followers| && MasterVal(m') == MasterVal(m)
      && forall j :: 0 <= j < |m.followers| ==> var f := m.followers[j];
           if j == i then Becomes(f, m'.followers[j], user, HwFor(f, MasterVal(m), FullVal(m), user))
           else Becomes(f, m'.followers[j], UserVals(f), f.hw)
  {
    ReadyAlike(m, i);
    var f := Ready(m.followers[i]).0;
    var m1 := m.(followers := m.followers[i := f]);
    var user := buf[..f.ctl.count];
    if f.vals[..f.info.count] == user {
      assert f.vals == user;
    } else {
      var f' := f.(vals := user + f.vals[f.info.count..]);
      assert f'.vals == user;
      ValuePutEffect(m.(followers := m.followers[i := f']), i, buf);
    }
  }

  /** A move of the master attenuates every follower anew and changes no user value. */
  lemma MoveEffect(m: Master, v: int, junk: Buffer)
    requires Group(m) && m.followers != []
    ensures var (m', err) := MasterMoved(m, v, junk);
      && err >= 0 && Group(m') && |m'.followers| == |m.followers| && MasterVal(m') == v && FullVal(m') == FullVal(m)
      && forall j :: 0 <= j < |m.followers| ==> var f, f' := m.followers[j], m'.followers[j];
           && Becomes(f, f', UserVals(f), f'.hw)
           && f'.hw == if v == MasterVal(m) then f.hw else HwFor(f, v, FullVal(m), SyncBase(f))
  {
    MasterReadyAlike(m);
    var m1 := MasterReady(m).0;
    if v != m1.val {
      SyncedEffect(m1, |m.followers|, m1.val, v, junk);
    }
  }

  /** A resync needs no coherence to start from: whatever the hardware holds, every cached and
    * initialised follower gets its attenuated user values back.
    */
  lemma ResyncEffect(m: Master, junk: Buffer)
    requires Group(m) && m.followers != []
    ensures var m' := Resynced(m, junk);
      && Group(m') && |m'.followers| == |m.followers| && MasterVal(m') == MasterVal(m) && FullVal(m') == FullVal(m)
      && forall j :: 0 <= j < |m.followers| ==> var f := m.followers[j];
           Becomes(f, m'.followers[j], UserVals(f), HwFor(f, MasterVal(m), FullVal(m), UserVals(f)))
  {
    MasterReadyAlike(m);
    var m1 := MasterReady(m).0;
    SyncedEffect(m1, |m.followers|, m1.val, m1.val, junk);
  }

  // ---- Runs ----

  datatype Op =
    | OpGet(i: nat, buf: Buffer)
    | OpPut(i: nat, buf: Buffer)
    | OpMasterGet
    | OpMasterPut(v: int, junk: Buffer)
    | OpSync(junk: Buffer)
    | OpAdd(f: Follower)

  function Step(m: Master, op: Op): (r: Master)
  {
    match op
    case OpGet(i, buf) => if i < |m.followers| then ValueGot(m, i, buf).0 else m
    case OpPut(i, buf) => if i < |m.followers| then UserPut(m, i, buf).0 else m
    case OpMasterGet => MasterReady(m).0
    case OpMasterPut(v, junk) => MasterMoved(m, v, junk).0
    case OpSync(junk) => Resynced(m, junk)
    case OpAdd(f) => m.(followers := m.followers + [f])
  }

  function Run(m: Master, ops: seq<Op>): (r: Master) {
    Folded(Step, m, ops)
  }

  /** The invariant of every run. */
  ghost predicate Sound(m: Master) {
    Group(m) && Coherent(m)
  }

  /** Values that a master at `v` leaves as they are: switches that are off, or on under a master
    * that is not; volumes in range under a full master, at their minimum under a lower one.
    */
  predicate Untouched(ctl: Info, v: int, fullVal: int, hw: seq<int>) {
    forall ch :: 0 <= ch < |hw| ==> LeftAlone(ctl, v, fullVal, hw[ch])
  }

  predicate LeftAlone(ctl: Info, v: int, fullVal: int, x: int) {
    match ctl.kind
    case Boolean => x == 0 || (x == 1 && v != 0)
    case Integer =>
      if v == fullVal then ctl.min <= x <= ctl.max else x == if v < fullVal then ctl.min else ctl.max
    case Other => true
  }

  lemma UntouchedExactly(f: Follower, v: int, fullVal: int, hw: seq<int>)
    requires GoodCtl(f.ctl)
    ensures HwFor(f, v, fullVal, hw) == hw <==> Untouched(f.ctl, v, fullVal, hw)
  {
    var r := HwFor(f, v, fullVal, hw);
    assert r == hw <==> forall ch :: 0 <= ch < |hw| ==> r[ch] == hw[ch];
  }

  /** A control that no callback has seen yet. */
  predicate Unused(f: Follower) {
    GoodCtl(f.ctl) && f.info.count == 0 && !f.overrun
  }

  /** A control may join while the master leaves the values in its hardware as they are. */
  predicate MayJoin(m: Master, f: Follower) {
    && Unused(f)
    && (m.followers != [] ==> f.ctl.kind == m.followers[0].ctl.kind)
    && var m' := m.(followers := m.followers + [f]);
       f.needUpdate || Untouched(f.ctl, MasterVal(m'), FullVal(m'), f.hw)
  }

  ghost predicate Admissible(m: Master, ops: seq<Op>)
    decreases |ops|
  {
    ops == [] || ((ops[0].OpAdd? ==> MayJoin(m, ops[0].f)) && Admissible(Step(m, ops[0]), ops[1..]))
  }

  /** The condition is exact. */
  lemma JoinExactly(m: Master, f: Follower)
    requires Sound(m) && Unused(f)
    requires m.followers != [] ==> f.ctl.kind == m.followers[0].ctl.kind
    ensures Sound(m.(followers := m.followers + [f])) <==> MayJoin(m, f)
  {
    var m' := m.(followers := m.followers + [f]);
    UntouchedExactly(f, MasterVal(m'), FullVal(m'), f.hw);
    assert m'.followers[|m.followers|] == f;
    forall i | 0 <= i < |m.followers|
      ensures m'.followers[i] == m.followers[i]
    {
    }
  }

  /** While the master is at its maximum, values in range are enough. */
  lemma JoinAtFull(m: Master, f: Follower)
    requires Sound(m) && MasterVal(m) == FullVal(m) && Unused(f)
    requires m.followers != [] ==> f.ctl.kind == m.followers[0].ctl.kind
    requires forall ch :: 0 <= ch < |f.hw| ==> f.ctl.min <= f.hw[ch] <= f.ctl.max
    ensures MayJoin(m, f)
  {
    var m' := m.(followers := m.followers + [f]);
    assert m'.followers[0].ctl.kind == f.ctl.kind;
    assert MasterVal(m') == FullVal(m') && GoodCtl(m'.followers[0].ctl);
  }

  /** The last value that a run gives to the master, or to the user values of follower `i`. */
  function LastMaster(ops: seq<Op>, v: int): int
    decreases |ops|
  {
    if ops == [] then v else LastMaster(ops[1..], MasterAfter(ops[0], v))
  }

  function MasterAfter(op: Op, v: int): int {
    if op.OpMasterPut? then op.v else v
  }

  function LastUser(ops: seq<Op>, i: nat, n: nat, user: seq<int>): seq<int>
    requires n <= CHANNELS
    decreases |ops|
  {
    if ops == [] then user
    else LastUser(ops[1..], i, n, if ops[0].OpPut? && ops[0].i == i then ops[0].buf[..n] else user)
  }

  /** `m'` is sound again; the master is at `v` and follower `who`, if cached, at `user`, while
    * every other cached follower has its user values still.
    */
  ghost predicate Keeps(m: Master, m': Master, v: int, who: int, user: seq<int>) {
    && Sound(m') && |m'.followers| >= |m.followers|
    && (m.followers != [] ==> FullVal(m') == FullVal(m) && MasterVal(m') == v)
    && forall i :: 0 <= i < |m.followers| ==> KeepsUser(m.followers[i], m'.followers[i], i == who, user)
  }

  ghost predicate KeepsUser(f: Follower, f': Follower, isPut: bool, user: seq<int>) {
    && f'.ctl == f.ctl && f'.needUpdate == f.needUpdate
    && (!f.needUpdate ==> UserVals(f') == if isPut then user else UserVals(f))
  }

  lemma AlikeKeeps(m: Master, m': Master)
    requires Sound(m) && Alike(m, m')
    ensures Keeps(m, m', MasterVal(m), -1, [])
  {
  }

  lemma PutKeeps(m: Master, i: nat, buf: Buffer)
    requires Sound(m) && i < |m.followers|
    ensures Keeps(m, UserPut(m, i, buf).0, MasterVal(m), i, buf[..m.followers[i].ctl.count])
  {
    PutEffect(m, i, buf);
  }

  lemma MoveKeeps(m: Master, v: int, junk: Buffer)
    requires Sound(m) && m.followers != []
    ensures Keeps(m, MasterMoved(m, v, junk).0, v, -1, [])
  {
    MoveEffect(m, v, junk);
  }

  lemma ResyncKeeps(m: Master, junk: Buffer)
    requires Sound(m) && m.followers != []
    ensures Keeps(m, Resynced(m, junk), MasterVal(m), -1, [])
  {
    ResyncEffect(m, junk);
  }

  lemma StepKeeps(m: Master, op: Op)
    requires Sound(m) && (op.OpAdd? ==> MayJoin(m, op.f))
    ensures Keeps(m, Step(m, op), MasterAfter(op, MasterVal(m)),
      if op.OpPut? then op.i else -1,
      if op.OpPut? && op.i < |m.followers| then op.buf[..m.followers[op.i].ctl.count] else [])
  {
    match op
    case OpGet(i, buf) =>
      if i < |m.followers| {
        ReadyAlike(m, i);
        AlikeKeeps(m, Step(m, op));
      }
    case OpPut(i, buf) =>
      if i < |m.followers| {
        PutKeeps(m, i, buf);
      }
    case OpMasterGet =>
      if m.followers != [] {
        MasterReadyAlike(m);
        AlikeKeeps(m, Step(m, op));
      }
    case OpMasterPut(v, junk) =>
      if m.followers != [] {
        MoveKeeps(m, v, junk);
      }
    case OpSync(junk) =>
      if m.followers != [] {
        ResyncKeeps(m, junk);
      }
    case OpAdd(f) =>
      JoinExactly(m, f);
  }

  /** Safety over whole runs. */
  lemma {:induction false} RunSound(m: Master, ops: seq<Op>)
    requires Sound(m) && Admissible(m, ops)
    ensures Sound(Run(m, ops))
    decreases |ops|
  {
    if ops != [] {
      StepKeeps(m, ops[0]);
      RunSound(Step(m, ops[0]), ops[1..]);
    }
  }

  /** What a run leaves in the hardware of a cached follower is settled by the last value given to
    * the master and the last values its own user asked for. Whatever else lay between leaves no trace.
    */
  lemma {:induction false} RunForgetsHistory(m: Master, ops: seq<Op>, i: nat)
    requires Sound(m) && Admissible(m, ops) && i < |m.followers| && !m.followers[i].needUpdate
    ensures var m' := Run(m, ops); var f := m.followers[i];
      var v, user := LastMaster(ops, MasterVal(m)), LastUser(ops, i, f.ctl.count, UserVals(f));
      && i < |m'.followers| && m'.followers[i].ctl == f.ctl && !m'.followers[i].needUpdate
      && FullVal(m') == FullVal(m) && MasterVal(m') == v
      && UserVals(m'.followers[i]) == user
      && m'.followers[i].hw == HwFor(f, v, FullVal(m), user)
    decreases |ops|
  {
    if ops != [] {
      StepKeeps(m, ops[0]);
      assert KeepsUser(m.followers[i], Step(m, ops[0]).followers[i], ops[0].OpPut? && ops[0].i == i,
                       if ops[0].OpPut? then ops[0].buf[..m.followers[i].ctl.count] else []);
      RunForgetsHistory(Step(m, ops[0]), ops[1..], i);
    }
  }

  /** What gets answer after a run: the last values that the follower's user asked for, whatever the
    * hardware holds of them, and the last master value.
    */
  lemma RunAnswers(m: Master, ops: seq<Op>, i: nat, buf: Buffer)
    requires Sound(m) && Admissible(m, ops) && i < |m.followers| && !m.followers[i].needUpdate
    ensures var m', n := Run(m, ops), m.followers[i].ctl.count;
      && i < |m'.followers|
      && ValueGot(m', i, buf).1 == 0
      && ValueGot(m', i, buf).2 == LastUser(ops, i, n, UserVals(m.followers[i])) + buf[n..]
      && MasterReady(m').0.val == LastMaster(ops, MasterVal(m))
  {
    RunForgetsHistory(m, ops, i);
    RunSound(m, ops);
    var m' := Run(m, ops);
    ReadyAlike(m', i);
    MasterReadyAlike(m');
    var f, n := Ready(m'.followers[i]).0, m.followers[i].ctl.count;
    assert f.info.count == n && f.vals[..n] == f.vals;
  }

  /** Two runs with the same last values agree on the hardware. */
  lemma SameEndSameHardware(m: Master, ops1: seq<Op>, ops2: seq<Op>, i: nat)
    requires Sound(m) && Admissible(m, ops1) && Admissible(m, ops2)
    requires i < |m.followers| && !m.followers[i].needUpdate
    requires MasterVal(Run(m, ops1)) == MasterVal(Run(m, ops2))
    requires LastUser(ops1, i, m.followers[i].ctl.count, UserVals(m.followers[i]))
          == LastUser(ops2, i, m.followers[i].ctl.count, UserVals(m.followers[i]))
    ensures i < |Run(m, ops1).followers| && i < |Run(m, ops2).followers|
    ensures Run(m, ops1).followers[i].hw == Run(m, ops2).followers[i].hw
  {
    RunForgetsHistory(m, ops1, i);
    RunForgetsHistory(m, ops2, i);
  }

  /** Back at its maximum the master attenuates nothing: the hardware holds the user values, kept
    * within the range of the control.
    */
  lemma FullVolumeRestores(m: Master, i: nat, ch: nat)
    requires Sound(m) && MasterVal(m) == FullVal(m)
    requires i < |m.followers| && !m.followers[i].needUpdate && ch < |m.followers[i].hw|
    ensures var f := m.followers[i];
      |UserVals(f)| == |f.hw|
      && (f.ctl.min <= UserVals(f)[ch] <= f.ctl.max ==> f.hw[ch] == UserVals(f)[ch])
      && (f.ctl.kind == Integer ==> f.hw[ch] == Clamp(UserVals(f)[ch], f.ctl.min, f.ctl.max))
  {
    assert GoodCtl(m.followers[0].ctl) && m.followers[i].ctl.kind == m.followers[0].ctl.kind;
  }

  /** A follower that re-reads its hardware takes the attenuated values for its user's: down and up
    * again leaves it where down had brought it. It has its values back exactly when they are such
    * that the lower master did not touch them.
    */
  lemma UncachedForgets(m: Master, v: int, junk: Buffer, i: nat)
    requires Group(m) && i < |m.followers| && m.followers[i].needUpdate
    requires MasterVal(m) == FullVal(m) && v != FullVal(m)
    ensures var down := MasterMoved(m, v, junk).0; var up := MasterMoved(down, FullVal(m), junk).0;
      var f := m.followers[i];
      && |up.followers| == |down.followers| == |m.followers|
      && down.followers[i].hw == HwFor(f, v, FullVal(m), f.hw)
      && up.followers[i].hw == down.followers[i].hw
      && (up.followers[i].hw == f.hw <==> Untouched(f.ctl, v, FullVal(m), f.hw))
  {
    MoveEffect(m, v, junk);
    var down := MasterMoved(m, v, junk).0;
    MoveEffect(down, FullVal(m), junk);
    var f := m.followers[i];
    assert GoodCtl(m.followers[0].ctl) && f.ctl.kind == m.followers[0].ctl.kind;
    FullTwice(f, v, FullVal(m), f.hw);
    UntouchedExactly(f, v, FullVal(m), f.hw);
  }

  /** A volume at 5 of 0..10 is at 2 after the master went down to 7 and up to 10 again. */
  lemma UncachedLoses(junk: Buffer)
    ensures var volume := Info(Integer, 1, 0, 10);
      var m := Master([FollowerRec(volume, true, [5], Info(Boolean, 0, 0, 0), [0], false)], Info(Boolean, 0, 0, 0), 0);
      var up := MasterMoved(MasterMoved(m, 7, junk).0, 10, junk).0;
      |up.followers| == 1 && up.followers[0].hw == [2]
  {
    var volume := Info(Integer, 1, 0, 10);
    var f := FollowerRec(volume, true, [5], Info(Boolean, 0, 0, 0), [0], false);
    UncachedForgets(Master([f], Info(Boolean, 0, 0, 0), 0), 7, junk, 0);
  }

  lemma FullTwice(f: Follower, v: int, fullVal: int, user: seq<int>)
    requires GoodCtl(f.ctl) && (f.ctl.kind == Boolean ==> fullVal != 0)
    ensures HwFor(f, fullVal, fullVal, HwFor(f, v, fullVal, user)) == HwFor(f, v, fullVal, user)
  {
  }

  // ---- Controls that a master does not support ----

  /** A control with too many channels or of another kind is refused, but only once: the copy of its
    * count, taken before the test, passes it for initialised. Only a control without any channel is
    * refused again.
    */
  lemma RefusedOnce(f: Follower)
    requires f.info.count == 0
    ensures var (f1, err1) := Ready(f);
      && (err1 == -22 <==> f.ctl.count > 2 || f.ctl.kind == Other) && (err1 == 0 || err1 == -22)
      && (err1 != 0 ==> f1.vals == f.vals && f1.overrun == f.overrun)
      && (Ready(f1).1 == -22 <==> f.ctl.count == 0 && f.ctl.kind == Other)
      && (Ready(f1).0.overrun <==> f.overrun || (f.ctl.count > 2 && f.needUpdate))
  {
  }

  /** The first get refuses a wide control and leaves its record alone, the second walks out of it. */
  lemma SecondGetOverruns(m: Master, i: nat, buf1: Buffer, buf2: Buffer)
    requires i < |m.followers| && m.followers[i].info.count == 0 && !m.followers[i].overrun
    ensures var (m1, err1, r1) := ValueGot(m, i, buf1);
      && !m1.followers[i].overrun && (m.followers[i].ctl.count > CHANNELS ==> err1 == -EINVAL && r1 == buf1)
      && (ValueGot(m1, i, buf2).0.followers[i].overrun <==> m.followers[i].ctl.count > CHANNELS)
  {
    RefusedOnce(m.followers[i]);
  }

  /** Wide controls are the only ones whose record is ever left. */
  ghost predicate OnlyWide(m: Master) {
    forall i :: 0 <= i < |m.followers| && m.followers[i].overrun ==> m.followers[i].ctl.count > CHANNELS
  }

  lemma MasterReadyOnlyWide(m: Master)
    requires OnlyWide(m)
    ensures OnlyWide(MasterReady(m).0)
  {
  }

  lemma ValueGotOnlyWide(m: Master, i: nat, buf: Buffer)
    requires OnlyWide(m) && i < |m.followers|
    ensures OnlyWide(ValueGot(m, i, buf).0)
  {
  }

  lemma ValuePutOnlyWide(m: Master, i: nat, buf: Buffer)
    requires OnlyWide(m) && i < |m.followers|
    ensures OnlyWide(ValuePut(m, i, buf).0)
  {
    MasterReadyOnlyWide(m);
  }

  lemma UserPutOnlyWide(m: Master, i: nat, buf: Buffer)
    requires OnlyWide(m) && i < |m.followers|
    ensures OnlyWide(UserPut(m, i, buf).0)
  {
    var f, n := Ready(m.followers[i]).0, Room(Ready(m.followers[i]).0.info.count);
    var f' := Touched(f).(vals := buf[..n] + f.vals[n..]);
    ValuePutOnlyWide(m.(followers := m.followers[i := f']), i, buf);
  }

  lemma SyncedOneOnlyWide(m: Master, i: nat, oldVal: int, newVal: int, buf: Buffer)
    requires OnlyWide(m) && i < |m.followers|
    ensures OnlyWide(SyncedOne(m, i, oldVal, newVal, buf).0)
  {
    ValueGotOnlyWide(m.(val := oldVal), i, buf);
    var (m1, _, buf1) := ValueGot(m.(val := oldVal), i, buf);
    ValuePutOnlyWide(m1.(val := newVal), i, buf1);
  }

  lemma SyncedOnlyWide(m: Master, n: nat, oldVal: int, newVal: int, buf: Buffer)
    requires OnlyWide(m) && n <= |m.followers|
    ensures OnlyWide(Synced(m, n, oldVal, newVal, buf).0)
  {
    var inv := (s: (Master, Buffer), k: nat) => OnlyWide(s.0);
    forall s: (Master, Buffer), k: nat | k < n && inv(s, k)
      ensures inv(SyncTurn(oldVal, newVal)(s, k), k + 1)
    {
      if k < |s.0.followers| {
        SyncedOneOnlyWide(s.0, k, oldVal, newVal, s.1);
      }
    }
    TurnsKeep(SyncTurn(oldVal, newVal), inv, (m, buf), n);
  }

  /** No run of callbacks, on whatever controls, leaves the record of one with at most two channels. */
  lemma {:induction false} RunOnlyWide(m: Master, ops: seq<Op>)
    requires OnlyWide(m) && forall k :: 0 <= k < |ops| && ops[k].OpAdd? ==> !ops[k].f.overrun
    ensures OnlyWide(Run(m, ops))
    decreases |ops|
  {
    if ops != [] {
      MasterReadyOnlyWide(m);
      var m1 := MasterReady(m).0;
      match ops[0] {
        case OpGet(i, buf) => if i < |m.followers| { ValueGotOnlyWide(m, i, buf); }
        case OpPut(i, buf) => if i < |m.followers| { UserPutOnlyWide(m, i, buf); }
        case OpMasterGet =>
        case OpMasterPut(v, junk) => SyncedOnlyWide(m1, |m.followers|, m1.val, v, junk);
        case OpSync(junk) => SyncedOnlyWide(m1, |m.followers|, m1.val, m1.val, junk);
        case OpAdd(_) =>
      }
      RunOnlyWide(Step(m, ops[0]), ops[1..]);
    }
  }

  ghost predicate AnyOverrun(m: Master) {
    exists i :: 0 <= i < |m.followers| && m.followers[i].overrun
  }

  /** A run that ends with an overrun has a first one, and that is of wide controls. From there on the
    * source may find any field of the record changed.
    */
  lemma {:induction false} FirstOverrun(m: Master, ops: seq<Op>) returns (n: nat)
    requires !AnyOverrun(m) && AnyOverrun(Run(m, ops))
    requires forall k :: 0 <= k < |ops| && ops[k].OpAdd? ==> !ops[k].f.overrun
    ensures n < |ops| && !AnyOverrun(Run(m, ops[..n]))
    ensures AnyOverrun(Run(m, ops[..n+1])) && OnlyWide(Run(m, ops[..n+1]))
    decreases |ops|
  {
    var m1 := Step(m, ops[0]);
    if AnyOverrun(m1) {
      n := 0;
      assert ops[..1][0] == ops[0] && Run(m, ops[..1]) == Run(m1, ops[..1][1..]);
    } else {
      var k := FirstOverrun(m1, ops[1..]);
      n := k + 1;
      assert ops[..n][0] == ops[0] && ops[..n][1..] == ops[1..][..k];
      assert ops[..n+1][0] == ops[0] && ops[..n+1][1..] == ops[1..][..k+1];
    }
    RunOnlyWide(m, ops[..n+1]);
  }

  /** The record of a control that no callback has seen yet, if the master does not support it. */
  predicate Unsupported(f: Follower) {
    && f.info.count == f.info.min == f.info.max == 0 && !f.overrun
    && (f.ctl.count > CHANNELS || f.ctl.kind == Other)
  }

  /** A sync goes on where its get was refused: the control gets what the buffer holds, as it is for
    * another kind, and for a wide volume clamped to a range that was never asked for, which leaves 0.
    */
  lemma RefusedSync(m: Master, i: nat, oldVal: int, newVal: int, buf: Buffer, ch: nat)
    requires m.info.count != 0 && i < |m.followers| && Unsupported(m.followers[i])
    requires ch < |m.followers[i].hw|
    ensures var f := m.followers[i]; var f' := SyncedOne(m, i, oldVal, newVal, buf).0.followers[i];
      && f' == f.(hw := f'.hw, info := Info(f.ctl.kind, f.ctl.count, 0, 0))
      && f'.hw[ch] == match f.ctl.kind
           case Other => buf[ch]
           case Integer => 0
           case Boolean => if newVal != 0 then buf[ch] % 2 else 0
  {
    RefusedOnce(m.followers[i]);
  }

  /** The next sync takes the control for initialised. One of another kind gets the values of its
    * record, which were never read from it, unless it re-reads; a wide one has its record overrun.
    */
  lemma SecondSync(m: Master, i: nat, v: int, w: int, buf1: Buffer, buf2: Buffer)
    requires m.info.count != 0 && i < |m.followers| && Unsupported(m.followers[i])
    requires m.followers[i].ctl.count > 0
    ensures var f := m.followers[i];
      var f1 := SyncedOne(m, i, m.val, v, buf1).0.followers[i];
      var f2 := SyncedOne(SyncedOne(m, i, m.val, v, buf1).0, i, v, w, buf2).0.followers[i];
      && (f.ctl.count > CHANNELS <==> f2.overrun)
      && (f.ctl.count <= CHANNELS ==> f2.hw == if f.needUpdate then f1.hw else f.vals)
  {
    var f := m.followers[i];
    var m1 := SyncedOne(m, i, m.val, v, buf1).0;
    RefusedOnce(f);
    assert m1.followers[i].info == Info(f.ctl.kind, f.ctl.count, 0, 0);
    if f.ctl.count <= CHANNELS {
      var n := Room(f.ctl.count);
      var vals := if f.needUpdate then m1.followers[i].hw else f.vals;
      var buf := vals[..n] + buf2[n..];
      assert AttenuatedAll(m1.followers[i].info, w, m1.info.max, f.ctl.count, buf) == buf;
      assert buf[..n] == vals;
    }
  }

  /** The turns before leave a follower alone, and the buffer with what the last of them pushed. */
  lemma {:induction false} BeforeTurn(m: Master, n: nat, oldVal: int, newVal: int, buf: Buffer)
    requires m.info.count != 0 && n <= |m.followers|
    ensures var (m', buf') := Synced(m, n, oldVal, newVal, buf);
      && m'.info == m.info && (forall j :: n <= j < |m.followers| ==> m'.followers[j] == m.followers[j])
      && buf'[..if n == 0 then CHANNELS else |m'.followers[n-1].hw|] == if n == 0 then buf else m'.followers[n-1].hw
  {
    if n > 0 {
      BeforeTurn(m, n - 1, oldVal, newVal, buf);
      var r := Synced(m, n - 1, oldVal, newVal, buf);
      OneTurn(r.0, n - 1, oldVal, newVal, r.1);
      assert Synced(m, n, oldVal, newVal, buf) == SyncedOne(r.0, n - 1, oldVal, newVal, r.1);
    }
  }

  lemma OneTurn(m: Master, i: nat, oldVal: int, newVal: int, buf: Buffer)
    requires m.info.count != 0 && i < |m.followers|
    ensures var (m', buf') := SyncedOne(m, i, oldVal, newVal, buf);
      && m'.info == m.info && buf'[..|m'.followers[i].hw|] == m'.followers[i].hw
      && forall j :: 0 <= j < |m.followers| && j != i ==> m'.followers[j] == m.followers[j]
  {
  }

  /** So the first sync of the whole list copies to a control of another kind what its predecessor in
    * the list has just got, or what the buffer held if it has none.
    */
  lemma RefusedGetsNeighbour(m: Master, i: nat, oldVal: int, newVal: int, junk: Buffer, ch: nat)
    requires m.info.count != 0 && i < |m.followers| && Unsupported(m.followers[i])
    requires m.followers[i].ctl.kind == Other && ch < |m.followers[i].hw|
    ensures var m' := Synced(m, i + 1, oldVal, newVal, junk).0;
      && m'.followers[i].ctl == m.followers[i].ctl
      && if i == 0 then m'.followers[i].hw[ch] == junk[ch]
      else ch < |m'.followers[i-1].hw| ==> m'.followers[i].hw[ch] == m'.followers[i-1].hw[ch]
  {
    BeforeTurn(m, i, oldVal, newVal, junk);
    var (m1, buf1) := Synced(m, i, oldVal, newVal, junk);
    RefusedSync(m1, i, oldVal, newVal, buf1, ch);
  }
}
