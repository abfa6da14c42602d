/** What the virtual master makes of volumes and switches, value by value, and what its calls answer. */
module VolumeLaws {
  import opened VMaster

  /** The value a user asked for and what the hardware gets while the master is at `v`: a switch is on
    * exactly if both are, a volume is as far below as the master is below its full volume, but stays
    * between its own ends.
    */
  predicate Follows(ctl: Info, v: int, full: int, user: int, hw: int) {
    && (ctl.kind == Boolean && v != 0 && user % 2 == 1 ==> hw == 1)
    && (ctl.kind == Boolean && (v == 0 || user % 2 == 0) ==> hw == 0)
    && (ctl.kind == Integer && ctl.min <= user + v - full <= ctl.max ==> hw - user == v - full)
    && (ctl.kind == Integer && user + v - full < ctl.min ==> hw == ctl.min)
    && (ctl.kind == Integer && user + v - full > ctl.max ==> hw == ctl.max)
  }

  lemma HwFollows(f: Follower, v: int, full: int, user: seq<int>, ch: nat)
    requires GoodCtl(f.ctl) && ch < |user|
    ensures |HwFor(f, v, full, user)| == |user| && Follows(f.ctl, v, full, user[ch], HwFor(f, v, full, user)[ch])
  {
  }

  /** After a move of the master every cached control follows it; its user keeps what was asked for. */
  lemma MoveHardware(m: Master, v: int, junk: Buffer, i: nat, ch: nat)
    requires Sound(m) && i < |m.followers| && !m.followers[i].needUpdate && ch < |m.followers[i].hw|
    ensures var f := m.followers[i]; var m' := MasterMoved(m, v, junk).0;
      && i < |m'.followers|
      && var f' := m'.followers[i]; var user := if f.info.count != 0 then f.vals else f.hw;
      && |f'.hw| == |f'.vals| == |user| == |f.hw|
      && (if f'.info.count != 0 then f'.vals else f'.hw) == user
      && Follows(f.ctl, v, m.followers[0].ctl.max, user[ch], f'.hw[ch])
  {
    MoveEffect(m, v, junk);
    HwFollows(m.followers[i], v, FullVal(m), UserVals(m.followers[i]), ch);
  }

  /** After a put the control holds what its user asked for, and its hardware follows the master. */
  lemma PutHardware(m: Master, i: nat, buf: Buffer, ch: nat)
    requires Sound(m) && i < |m.followers| && !m.followers[i].needUpdate && ch < |m.followers[i].hw|
    ensures var f := m.followers[i]; var m' := UserPut(m, i, buf).0;
      && i < |m'.followers|
      && var f' := m'.followers[i];
      && f'.ctl == f.ctl && |f'.hw| == |f'.vals| == |f.hw| <= 2 && f'.vals[ch] == buf[ch]
      && Follows(f.ctl, if m.info.count != 0 then m.val else m.followers[0].ctl.max, m.followers[0].ctl.max,
                 buf[ch], f'.hw[ch])
  {
    PutEffect(m, i, buf);
    PutReady(m, i, buf);
    var user := buf[..m.followers[i].ctl.count];
    HwFollows(m.followers[i], MasterVal(m), FullVal(m), user, ch);
  }

  lemma PutReady(m: Master, i: nat, buf: Buffer)
    requires Group(m) && i < |m.followers|
    ensures var m' := UserPut(m, i, buf).0;
      i < |m'.followers| && m'.followers[i].info.count == m.followers[i].ctl.count
  {
    ReadyAlike(m, i);
  }

  /** After any run the hardware follows the last value of the master from the last value of the user. */
  lemma RunHardware(m: Master, ops: seq<Op>, i: nat, ch: nat)
    requires Sound(m) && Admissible(m, ops)
    requires i < |m.followers| && !m.followers[i].needUpdate && ch < |m.followers[i].hw|
    ensures var f := m.followers[i]; var m' := Run(m, ops);
      var user := LastUser(ops, i, f.ctl.count, if f.info.count != 0 then f.vals else f.hw);
      && i < |m'.followers| && |m'.followers[i].hw| == |user| == |f.hw|
      && Follows(f.ctl, LastMaster(ops, if m.info.count != 0 then m.val else m.followers[0].ctl.max),
                 m.followers[0].ctl.max, user[ch], m'.followers[i].hw[ch])
  {
    RunForgetsHistory(m, ops, i);
    var f := m.followers[i];
    var user := LastUser(ops, i, f.ctl.count, UserVals(f));
    assert UserVals(Run(m, ops).followers[i]) == user;
    HwFollows(f, LastMaster(ops, MasterVal(m)), FullVal(m), user, ch);
  }

  // ---- Answers ----

  /** A put answers 1 exactly if it changes a value of the user, and else 0. */
  lemma PutAnswers(m: Master, i: nat, buf: Buffer)
    requires Group(m) && i < |m.followers| && !m.followers[i].needUpdate
    ensures var f := m.followers[i]; var user := if f.info.count != 0 then f.vals else f.hw;
      UserPut(m, i, buf).1 == if buf[..f.ctl.count] == user then 0 else 1
  {
    ReadyAlike(m, i);
    var f := Ready(m.followers[i]).0;
    assert f.vals[..f.info.count] == f.vals;
    MasterReadyAlike(m.(followers := m.followers[i := f.(vals := buf[..f.ctl.count])]));
    assert buf[..f.ctl.count] + f.vals[f.ctl.count..] == buf[..f.ctl.count];
  }

  /** A move answers 1 exactly if it changes the value of the master, and else 0; an empty list is an
    * error.
    */
  lemma MoveAnswers(m: Master, v: int, junk: Buffer)
    requires Group(m)
    ensures MasterMoved(m, v, junk).1 ==
      if m.followers == [] then -2
      else if v == (if m.info.count != 0 then m.val else m.followers[0].ctl.max) then 0 else 1
  {
    if m.followers != [] {
      MasterReadyAlike(m);
    }
  }

  /** The first call that asks for the master's value initialises it, at its maximum. */
  lemma InitAnswers(m: Master)
    requires Group(m) && m.followers != []
    ensures var (m', r) := MasterReady(m);
      && r == (if m.info.count != 0 then 0 else 1) && MasterReady(m') == (m', 0)
      && m'.info == m.followers[0].ctl.(count := 1)
      && m'.val == if m.info.count != 0 then m.val else m.followers[0].ctl.max
  {
    MasterReadyAlike(m);
  }

  /** The controls that the laws are about. */
  lemma GoodCtlPlainly(ctl: Info)
    ensures GoodCtl(ctl) <==>
      && (ctl.kind == Boolean || ctl.kind == Integer) && ctl.count <= 2 && ctl.min <= ctl.max
      && (ctl.kind == Boolean ==> ctl.min == 0 && ctl.max == 1)
  {
  }

  /** Values that the master leaves alone. */
  lemma UntouchedPlainly(ctl: Info, v: int, full: int, hw: seq<int>)
    requires GoodCtl(ctl)
    ensures Untouched(ctl, v, full, hw) <==> forall ch :: 0 <= ch < |hw| ==>
      && (ctl.kind == Boolean ==> hw[ch] == 0 || (hw[ch] == 1 && v != 0))
      && (ctl.kind == Integer && v == full ==> ctl.min <= hw[ch] <= ctl.max)
      && (ctl.kind == Integer && v < full ==> hw[ch] == ctl.min)
      && (ctl.kind == Integer && v > full ==> hw[ch] == ctl.max)
  {
  }
}
