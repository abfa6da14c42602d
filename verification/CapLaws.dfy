/** Amplifier commands on the records they look at: which capabilities count, which index and channel
  * a command means, and what becomes of the value.
  */
module CapLaws {
  import opened Options
  import opened HdaCodec
  import opened Verbs
  import opened VerbLaws

  /** What is stored for a value: a gain in range as it is, one out of range as the last step but one, or
    * as all ones if there is no step; a mute only where there is one.
    */
  function Stored(caps: AmpCaps, amp: Byte): int {
    if amp % 0x80 <= caps.nsteps then (if caps.mute then amp else amp % 0x80)
    else if caps.nsteps >= 1 then (if caps.mute && amp >= 0x80 then 0x80 else 0) + caps.nsteps - 1
    else if caps.mute then 0xff else 0x7f
  }

  lemma StoredExactly(caps: AmpCaps, amp: Byte)
    ensures Sanitised(NumSteps(CapWord(caps)), HasMute(CapWord(caps)), amp) as int == Stored(caps, amp)
  {
    CapWordDecodes(caps);
    if amp % 0x80 <= caps.nsteps || caps.nsteps >= 1 {
      SanitisedValue(caps.nsteps, caps.mute, amp);
    } else {
      assert WithMute(0xffff_ffff, amp) == 0xffff_ffff;
    }
  }

  /** What a set command with payload `val` does to the record, on its fields. */
  lemma SetAmpPlainly(c: Codec, nid: nat, val: Half, other: int)
    requires Valid(c) && 0 < nid < 0x80 && Find(c, nid).Some?
    ensures var r := Find(c, nid).value; var n, group := c.nodes[r], c.nodes[0];
      var (c', err, rc) := Command(c, ClassWord(nid, 3, val), other);
      var isPin, idx := n.wcaps / 0x10_0000 % 16 == 4, val / 0x100 % 0x10;
      var outSet, inSet := val / 0x8000 % 2 == 1, val / 0x4000 % 2 == 1;
      var outIdx := if isPin && c.pinAmpWorkaround && idx < |n.conns| then idx else 0;
      var given := if outSet then outIdx else idx;
      var inIdx := if !isPin && given < |n.conns| then given else 0;
      var outCaps := if n.ampOutCaps.override then n.ampOutCaps else group.ampOutCaps;
      var inCaps := if n.ampInCaps.override then n.ampInCaps else group.ampInCaps;
      && err == 0 && rc == Some(0) && |c'.nodes| == |c.nodes|
      && var n' := c'.nodes[r];
      && c' == c.(nodes := c.nodes[r := n']) && n' == n.(ampIn := n'.ampIn, ampOut := n'.ampOut)
      && (forall k :: 0 <= k < HDA_MAX_NUM_CONNS ==>
            n'.ampOut[k].left as int ==
              if outSet && k == outIdx && val / 0x2000 % 2 == 1 then Stored(outCaps, val % 0x100) else n.ampOut[k].left)
      && (forall k :: 0 <= k < HDA_MAX_NUM_CONNS ==>
            n'.ampOut[k].right as int ==
              if outSet && k == outIdx && val / 0x1000 % 2 == 1
              then Stored(outCaps, val % 0x100) else n.ampOut[k].right)
      && (forall k :: 0 <= k < HDA_MAX_NUM_CONNS ==>
            n'.ampIn[k].left as int ==
              if inSet && k == inIdx && val / 0x2000 % 2 == 1 then Stored(inCaps, val % 0x100) else n.ampIn[k].left)
      && (forall k :: 0 <= k < HDA_MAX_NUM_CONNS ==>
            n'.ampIn[k].right as int ==
              if inSet && k == inIdx && val / 0x1000 % 2 == 1 then Stored(inCaps, val % 0x100) else n.ampIn[k].right)
  {
    var n, group := c.nodes[Find(c, nid).value], c.nodes[0];
    ClassWordDecodes(nid, 3, val);
    SetAmpCommand(c, ClassWord(nid, 3, val), val, other);
    StoredExactly(if n.ampOutCaps.override then n.ampOutCaps else group.ampOutCaps, val % 0x100);
    StoredExactly(if n.ampInCaps.override then n.ampInCaps else group.ampInCaps, val % 0x100);
  }

  lemma SetAmpCommand(c: Codec, cmd: nat, val: Half, other: int)
    requires Valid(c) && Nid(cmd) != 0 && Find(c, Nid(cmd)).Some?
    requires cmd / 0x100 % 0x1000 / 0x100 % 0x10 == 3 && cmd % 0x1_0000 == val
    ensures var r := Find(c, Nid(cmd)).value;
      Command(c, cmd, other) == (c.(nodes := c.nodes[r := AmpGainMuteSet(c, c.nodes[r], val)]), 0, Some(0))
  {
    assert val % 0x1_0000 == val;
  }

  /** What a get command with payload `val` answers. */
  lemma GetAmpPlainly(c: Codec, nid: nat, val: Half, other: int)
    requires Valid(c) && 0 < nid < 0x80 && Find(c, nid).Some?
    ensures var n := c.nodes[Find(c, nid).value];
      var isPin, idx := n.wcaps / 0x10_0000 % 16 == 4, val % 0x20;
      var outIdx := if isPin && c.pinAmpWorkaround && idx < |n.conns| then idx else 0;
      var inIdx := if !isPin && idx < |n.conns| then idx else 0;
      var pair := if val / 0x8000 % 2 == 1 then n.ampOut[outIdx] else n.ampIn[inIdx];
      Command(c, ClassWord(nid, 11, val), other)
        == (c, 0, Some((if val / 0x2000 % 2 == 1 then pair.left else pair.right) as int))
  {
    ClassWordDecodes(nid, 11, val);
    GetAmpCommand(c, ClassWord(nid, 11, val), val, other);
  }

  lemma GetAmpCommand(c: Codec, cmd: nat, val: Half, other: int)
    requires Valid(c) && Nid(cmd) != 0 && Find(c, Nid(cmd)).Some?
    requires cmd / 0x100 % 0x1000 / 0x100 % 0x10 == 11 && cmd % 0x1_0000 == val
    ensures var r := Find(c, Nid(cmd)).value;
      Command(c, cmd, other) == (c, 0, Some(AmpGainMute(c, c.nodes[r], val) as int))
  {
    var r := Find(c, Nid(cmd)).value;
    assert c.nodes[r := c.nodes[r]] == c.nodes;
    assert val % 0x1_0000 == val;
  }

  /** Setting one side and channel and reading it: whatever the capabilities that count allow comes back
    * as it was set.
    */
  lemma AllowedComesBack(c: Codec, nid: nat, output: bool, left: bool, idx: nat, amp: Byte, other: int)
    requires Valid(c) && 0 < nid < 0x80 && Find(c, nid).Some? && idx < 0x10
    ensures var n, group := c.nodes[Find(c, nid).value], c.nodes[0];
      var own := if output then n.ampOutCaps else n.ampInCaps;
      var caps := if own.override then own else if output then group.ampOutCaps else group.ampInCaps;
      var c' := Command(c, ClassWord(nid, 3, SetPayload(output, left, idx, amp)), other).0;
      var rc := Command(c', ClassWord(nid, 11, GetPayload(output, left, idx)), other).2;
      && rc == Some(Stored(caps, amp))
      && (amp % 0x80 <= caps.nsteps && (amp >= 0x80 ==> caps.mute) ==> rc == Some(amp as int))
  {
    var n, group := c.nodes[Find(c, nid).value], c.nodes[0];
    var own := if output then n.ampOutCaps else n.ampInCaps;
    AmpWordsRoundTrip(c, nid, output, left, idx, amp, other);
    CapOfRecords(c, n, output);
    var caps := if own.override then own else if output then group.ampOutCaps else group.ampInCaps;
    StoredExactly(caps, amp);
    if amp % 0x80 <= caps.nsteps && (amp >= 0x80 ==> caps.mute) {
      StoredAllowed(caps, amp);
    }
  }

  lemma CapOfRecords(c: Codec, n: Node, output: bool)
    requires Valid(c)
    ensures var own := if output then n.ampOutCaps else n.ampInCaps;
      (if output then OutCap(c, n) else InCap(c, n))
        == CapWord(if own.override then own else if output then c.nodes[0].ampOutCaps else c.nodes[0].ampInCaps)
  {
  }

  lemma StoredAllowed(caps: AmpCaps, amp: Byte)
    requires amp % 0x80 <= caps.nsteps && (amp >= 0x80 ==> caps.mute)
    ensures Stored(caps, amp) == amp
  {
  }

  /** The capability parameters of both sides: offset, steps, step size and mute of the same records. */
  lemma CapParameters(c: Codec, nid: nat, output: bool, other: int)
    requires Valid(c) && 0 < nid < 0x80 && Find(c, nid).Some?
    ensures var n, group := c.nodes[Find(c, nid).value], c.nodes[0];
      var own := if output then n.ampOutCaps else n.ampInCaps;
      var caps := if own.override then own else if output then group.ampOutCaps else group.ampInCaps;
      var (c', err, rc) := Command(c, VerbWord(nid, VERB_GET_PARAM, if output then 0x12 else 0x0d), other);
      && c' == c && err == 0 && rc.Some? && rc.value >= 0
      && rc.value % 0x100 == caps.ofs && rc.value / 0x100 % 0x100 == caps.nsteps
      && rc.value / 0x1_0000 % 0x100 == caps.stepsize
      && (rc.value / 0x8000_0000 % 2 == 1 <==> caps.mute) && rc.value / 0x100_0000 % 0x80 == 0
  {
    var par: Byte := if output then 0x12 else 0x0d;
    var n, group := c.nodes[Find(c, nid).value], c.nodes[0];
    var own := if output then n.ampOutCaps else n.ampInCaps;
    VerbWordDecodes(nid, VERB_GET_PARAM, par);
    ParamCommand(c, VerbWord(nid, VERB_GET_PARAM, par), par, other);
    CapWordFields(if own.override then own else if output then group.ampOutCaps else group.ampInCaps);
  }

  lemma ParamCommand(c: Codec, cmd: nat, par: Byte, other: int)
    requires Valid(c) && Nid(cmd) != 0 && Find(c, Nid(cmd)).Some?
    requires cmd / 0x100 % 0x1000 == 0xf00 && cmd % 0x100 == par
    ensures var n := c.nodes[Find(c, Nid(cmd)).value];
      Command(c, cmd, other) == (c, 0, Some(Parameter(c, n, par, other)))
  {
    var r := Find(c, Nid(cmd)).value;
    assert c.nodes[r := c.nodes[r]] == c.nodes;
  }

  lemma CapWordFields(caps: AmpCaps)
    ensures var w := CapWord(caps);
      && w % 0x100 == caps.ofs && w / 0x100 % 0x100 == caps.nsteps && w / 0x1_0000 % 0x100 == caps.stepsize
      && (w / 0x8000_0000 % 2 == 1 <==> caps.mute) && w / 0x100_0000 % 0x80 == 0
  {
    var w, m := CapWord(caps), if caps.mute then 1 else 0;
    assert w / 0x100 == caps.nsteps + 0x100 * caps.stepsize + 0x80_0000 * m;
    assert w / 0x1_0000 == caps.stepsize + 0x8000 * m;
    assert w / 0x100_0000 == 0x80 * m;
    assert w / 0x8000_0000 == m;
  }
}
