/** What the state behind the verbs keeps, and what a verb reads back, over whole sequences of
  * command words.
  */
module VerbLaws {
  import opened Options
  import opened HdaCodec
  import opened Verbs
  import opened Runs

  function Stepper(other: int): (Codec, nat) -> Codec {
    (c: Codec, cmd: nat) => if Valid(c) then Command(c, cmd, other).0 else c
  }

  function Run(c: Codec, cmds: seq<nat>, other: int): (r: Codec)
    requires Valid(c)
    ensures Valid(r)
  {
    FoldedValid(c, cmds, other);
    Folded(Stepper(other), c, cmds)
  }

  lemma {:induction false} FoldedValid(c: Codec, cmds: seq<nat>, other: int)
    requires Valid(c)
    ensures Valid(Folded(Stepper(other), c, cmds))
    decreases |cmds|
  {
    if cmds != [] {
      FoldedValid(Command(c, cmds[0], other).0, cmds[1..], other);
    }
  }

  // ---- Amplifiers ----

  /** Mute only where there is a mute, gain within the steps wherever there are steps. */
  predicate AmpOk(nsteps: Byte, hasMute: bool, amp: Byte) {
    (amp / 0x80 == 1 ==> hasMute) && (nsteps >= 1 ==> amp % 0x80 <= nsteps)
  }

  /** Requests in range are stored as they are, a gain out of range becomes the last step but one;
    * either way a mute that does not exist is dropped.
    */
  lemma SanitisedValue(nsteps: Byte, hasMute: bool, amp: Byte)
    requires amp % 0x80 <= nsteps || nsteps >= 1
    ensures Sanitised(nsteps, hasMute, amp)
         == (if hasMute then amp / 0x80 * 0x80 else 0) + (if amp % 0x80 <= nsteps then amp % 0x80 else nsteps - 1)
  {
    if amp % 0x80 > nsteps {
      assert (nsteps + 0xffff_ffff) % 0x1_0000_0000 == nsteps - 1;
    }
  }

  lemma SanitisedOk(nsteps: Byte, hasMute: bool, amp: Byte)
    ensures AmpOk(nsteps, hasMute, Sanitised(nsteps, hasMute, amp))
  {
    if amp % 0x80 <= nsteps || nsteps >= 1 {
      SanitisedValue(nsteps, hasMute, amp);
    }
  }

  /** Without steps the clamped gain wraps round: the stored gain is in range exactly when there
    * are steps or none was asked for.
    */
  lemma GainInRangeExactly(nsteps: Byte, hasMute: bool, amp: Byte)
    ensures Sanitised(nsteps, hasMute, amp) % 0x80 <= nsteps <==> nsteps >= 1 || amp % 0x80 == 0
  {
    if amp % 0x80 <= nsteps || nsteps >= 1 {
      SanitisedValue(nsteps, hasMute, amp);
    } else {
      assert WithMute(0xffff_ffff, amp) == 0xffff_ffff;
    }
  }

  /** The setter decodes exactly the capabilities that the parameter verb encodes. */
  lemma CapWordDecodes(caps: AmpCaps)
    ensures NumSteps(CapWord(caps)) == caps.nsteps && (HasMute(CapWord(caps)) <==> caps.mute)
  {
    var mute := if caps.mute then 1 else 0;
    assert CapWord(caps) / 0x100 == caps.nsteps + 0x100 * (caps.stepsize + 0x8000 * mute);
    assert CapWord(caps) / 0x8000_0000 == mute;
  }

  /** One stored byte: widget, direction, index and channel. */
  datatype Cell = Cell(r: Ref, output: bool, idx: nat, left: bool)

  predicate InCodec(c: Codec, cell: Cell) {
    cell.r < |c.nodes| && cell.idx < HDA_MAX_NUM_CONNS
  }

  function CellValue(c: Codec, cell: Cell): Byte
    requires InCodec(c, cell)
  {
    var node := c.nodes[cell.r];
    var pair := if cell.output then node.ampOut[cell.idx] else node.ampIn[cell.idx];
    if cell.left then pair.left else pair.right
  }

  function CellCap(c: Codec, cell: Cell): nat
    requires Valid(c) && InCodec(c, cell)
  {
    if cell.output then OutCap(c, c.nodes[cell.r]) else InCap(c, c.nodes[cell.r])
  }

  /** The command sets this cell. */
  predicate Addresses(c: Codec, cmd: nat, cell: Cell)
    requires InCodec(c, cell)
  {
    var val := cmd % 0x1_0000;
    && VerbOf(cmd) == Some(SetAmp) && Nid(cmd) != 0 && Find(c, Nid(cmd)) == Some(cell.r)
    && Bit(val, if cell.output then AMP_SET_OUTPUT else AMP_SET_INPUT)
    && Bit(val, if cell.left then AMP_SET_LEFT else AMP_SET_RIGHT)
    && cell.idx == SetIndex(c, c.nodes[cell.r], val, cell.output)
  }

  /** The index of a command is that of the input it names, section 7.3.3.7 of the High Definition
    * Audio Specification; but a command that sets both amplifiers of a mixer or selector only
    * reaches input 0.
    */
  lemma InputIndexExactly(c: Codec, node: Node, val: nat)
    requires Type(node) != AC_WID_PIN && val / 0x100 % 0x10 < |node.conns|
    ensures SetIndex(c, node, val, false) == val / 0x100 % 0x10
      <==> !Bit(val, AMP_SET_OUTPUT) || val / 0x100 % 0x10 == 0
  {
  }

  /** The widgets are the same ones, whatever they hold. */
  ghost predicate SameWidgets(c: Codec, c': Codec) {
    && |c'.nodes| == |c.nodes| && c'.afgLen == c.afgLen && c'.pinAmpWorkaround == c.pinAmpWorkaround
    && forall r :: 0 <= r < |c.nodes| ==> SameWidget(c.nodes[r], c'.nodes[r])
  }

  predicate SameWidget(n: Node, n': Node) {
    n' == n.(pinctl := n'.pinctl, pinDefault := n'.pinDefault, ampIn := n'.ampIn, ampOut := n'.ampOut,
             currConn := n'.currConn, coefIdx := n'.coefIdx, coefTbl := n'.coefTbl)
  }

  lemma CommandSameWidgets(c: Codec, cmd: nat, other: int)
    requires Valid(c)
    ensures SameWidgets(c, Command(c, cmd, other).0)
  {
  }

  lemma {:induction false} FindFromSame(c: Codec, c': Codec, nid: nat, r: Ref)
    requires SameWidgets(c, c') && r <= |c.nodes|
    ensures FindFrom(c', nid, r) == FindFrom(c, nid, r)
    decreases |c.nodes| - r
  {
    if r < |c.nodes| {
      assert SameWidget(c.nodes[r], c'.nodes[r]);
      FindFromSame(c, c', nid, r + 1);
    }
  }

  function SanitisedFor(c: Codec, cell: Cell, cmd: nat): Byte
    requires Valid(c) && InCodec(c, cell)
  {
    Sanitised(NumSteps(CellCap(c, cell)), HasMute(CellCap(c, cell)), cmd % 0x1_0000 % 0x100)
  }

  /** A command changes the cells it addresses, to the sanitised value, and no other. */
  lemma CommandOnCell(c: Codec, cmd: nat, other: int, cell: Cell)
    requires Valid(c) && InCodec(c, cell)
    ensures var c' := Command(c, cmd, other).0;
      && InCodec(c', cell)
      && CellValue(c', cell) == if Addresses(c, cmd, cell) then SanitisedFor(c, cell, cmd) else CellValue(c, cell)
  {
  }

  /** The last command of a run that sets the cell, if any. */
  function LastSet(c: Codec, cmds: seq<nat>, cell: Cell): Option<nat>
    requires InCodec(c, cell)
  {
    if cmds == [] then None
    else if Addresses(c, cmds[|cmds| - 1], cell) then Some(cmds[|cmds| - 1])
    else LastSet(c, cmds[..|cmds| - 1], cell)
  }

  lemma RunSnoc(c: Codec, cmds: seq<nat>, cmd: nat, other: int)
    requires Valid(c)
    ensures Run(c, cmds + [cmd], other) == Command(Run(c, cmds, other), cmd, other).0
  {
    FoldedSnoc(Stepper(other), c, cmds, cmd);
  }

  lemma {:induction false} RunSameWidgets(c: Codec, cmds: seq<nat>, other: int)
    requires Valid(c)
    ensures SameWidgets(c, Run(c, cmds, other))
    decreases |cmds|
  {
    if cmds != [] {
      var c1 := Command(c, cmds[0], other).0;
      CommandSameWidgets(c, cmds[0], other);
      RunSameWidgets(c1, cmds[1..], other);
      var c' := Run(c, cmds, other);
      forall r | 0 <= r < |c.nodes|
        ensures SameWidget(c.nodes[r], c'.nodes[r])
      {
        assert SameWidget(c.nodes[r], c1.nodes[r]) && SameWidget(c1.nodes[r], c'.nodes[r]);
      }
    }
  }

  /** What addresses a cell, and what is stored there, does not depend on the state. */
  lemma AddressesSame(c: Codec, c': Codec, cmd: nat, cell: Cell)
    requires Valid(c) && Valid(c') && SameWidgets(c, c') && InCodec(c, cell)
    ensures Addresses(c, cmd, cell) <==> Addresses(c', cmd, cell)
    ensures SanitisedFor(c, cell, cmd) == SanitisedFor(c', cell, cmd)
  {
    FindFromSame(c, c', Nid(cmd), 0);
    assert SameWidget(c.nodes[cell.r], c'.nodes[cell.r]) && SameWidget(c.nodes[0], c'.nodes[0]);
  }

  /** After any run a cell holds the sanitised value of the last command that set it. */
  lemma {:induction false} RunOnCell(c: Codec, cmds: seq<nat>, other: int, cell: Cell)
    requires Valid(c) && InCodec(c, cell)
    ensures var c' := Run(c, cmds, other);
      && InCodec(c', cell)
      && CellValue(c', cell) == match LastSet(c, cmds, cell)
                                case Some(cmd) => SanitisedFor(c, cell, cmd)
                                case None => CellValue(c, cell)
    decreases |cmds|
  {
    if cmds != [] {
      var rest, cmd := cmds[..|cmds| - 1], cmds[|cmds| - 1];
      assert cmds == rest + [cmd];
      RunSnoc(c, rest, cmd, other);
      RunOnCell(c, rest, other, cell);
      RunSameWidgets(c, rest, other);
      var c1 := Run(c, rest, other);
      AddressesSame(c, c1, cmd, cell);
      CommandOnCell(c1, cmd, other, cell);
    }
  }

  /** The cell that a get command reads. */
  function CellRead(c: Codec, r: Ref, cmd: nat): Cell
    requires r < |c.nodes|
  {
    var node, val := c.nodes[r], cmd % 0x1_0000;
    var output := Bit(val, AMP_GET_OUTPUT);
    Cell(r, output, if output then OutIndex(node, c.pinAmpWorkaround, val % 0x20) else InIndex(node, val % 0x20),
         Bit(val, AMP_GET_LEFT))
  }

  /** A get, after any run, answers with the last value set. */
  lemma GetReadsLastSet(c: Codec, cmds: seq<nat>, get: nat, other: int)
    requires Valid(c) && VerbOf(get) == Some(GetAmp) && Nid(get) != 0 && Find(c, Nid(get)).Some?
    ensures var cell := CellRead(c, Find(c, Nid(get)).value, get);
      Command(Run(c, cmds, other), get, other).2 == Some(match LastSet(c, cmds, cell)
        case Some(cmd) => SanitisedFor(c, cell, cmd) as int
        case None => CellValue(c, cell) as int)
  {
    var r := Find(c, Nid(get)).value;
    var c' := Run(c, cmds, other);
    RunSameWidgets(c, cmds, other);
    FindFromSame(c, c', Nid(get), 0);
    assert SameWidget(c.nodes[r], c'.nodes[r]);
    RunOnCell(c, cmds, other, CellRead(c, r, get));
  }

  // ---- Through command words ----

  /** The word of a verb that has its class in the top 4 bits and a payload of 16 bits. */
  function ClassWord(nid: nat, class_: nat, payload: Half): nat {
    0x10_0000 * nid + 0x1_0000 * class_ + payload
  }

  lemma ClassWordDecodes(nid: nat, class_: nat, payload: Half)
    requires nid < 0x80 && class_ < 0x10
    ensures var w := ClassWord(nid, class_, payload);
      Nid(w) == nid && w / 0x100 % 0x1000 / 0x100 % 0x10 == class_ && w % 0x1_0000 == payload
  {
    var w := ClassWord(nid, class_, payload);
    var verb := 0x100 * class_ + payload / 0x100;
    assert w / 0x10_0000 == nid;
    VerbField(nid, class_, payload);
    assert verb / 0x100 == class_;
  }

  lemma VerbField(nid: nat, class_: nat, payload: Half)
    requires class_ < 0x10
    ensures ClassWord(nid, class_, payload) / 0x100 % 0x1000 == 0x100 * class_ + payload / 0x100
  {
    assert ClassWord(nid, class_, payload) / 0x100 == 0x1000 * nid + (0x100 * class_ + payload / 0x100);
  }

  /** The word of a verb of 12 bits with a payload of 8 bits. */
  function VerbWord(nid: nat, verb: nat, payload: Byte): nat {
    0x10_0000 * nid + 0x100 * verb + payload
  }

  lemma VerbWordDecodes(nid: nat, verb: nat, payload: Byte)
    requires nid < 0x80 && verb < 0x1000
    ensures var w := VerbWord(nid, verb, payload); Nid(w) == nid && w / 0x100 % 0x1000 == verb && w % 0x100 == payload
  {
    var w := VerbWord(nid, verb, payload);
    assert w / 0x10_0000 == nid;
    assert w / 0x100 == 0x1000 * nid + verb;
  }

  const CLASS_SET_AMP: nat := 3
  const CLASS_GET_AMP: nat := 11
  const VERB_SET_SEL: nat := 0x701
  const VERB_GET_SEL: nat := 0xf01
  const VERB_GET_PARAM: nat := 0xf00
  const VERB_GET_CONNS: nat := 0xf02

  /** The payload that sets one side and channel of an amplifier, and the one that reads it. */
  function SetPayload(output: bool, left: bool, idx: nat, amp: Byte): nat {
    (if output then 0x8000 else 0x4000) + (if left then 0x2000 else 0x1000) + 0x100 * idx + amp
  }

  function GetPayload(output: bool, left: bool, idx: nat): nat {
    (if output then 0x8000 else 0) + (if left then 0x2000 else 0) + idx
  }

  lemma SetPayloadFields(output: bool, left: bool, idx: nat, amp: Byte)
    requires idx < 0x10
    ensures var val := SetPayload(output, left, idx, amp);
      && val < 0x1_0000 && val / 0x100 % 0x10 == idx && val % 0x100 == amp
      && Bit(val, AMP_SET_OUTPUT) == output && Bit(val, AMP_SET_INPUT) == !output
      && Bit(val, AMP_SET_LEFT) == left && Bit(val, AMP_SET_RIGHT) == !left
  {
    assert SetPayload(output, left, idx, amp) / 0x100
        == (if output then 0x80 else 0x40) + (if left then 0x20 else 0x10) + idx;
  }

  lemma GetPayloadFields(output: bool, left: bool, idx: nat)
    requires idx < 0x10
    ensures var val := GetPayload(output, left, idx);
      && val < 0x1_0000 && val % 0x20 == idx
      && Bit(val, AMP_GET_OUTPUT) == output && Bit(val, AMP_GET_LEFT) == left
  {
  }

  /** Setting an amplifier of a reachable widget with one command word and reading it with another
    * answers with the sanitised value.
    */
  lemma AmpWordsRoundTrip(c: Codec, nid: nat, output: bool, left: bool, idx: nat, amp: Byte, other: int)
    requires Valid(c) && 0 < nid < 0x80 && Find(c, nid).Some? && idx < 0x10
    ensures var node := c.nodes[Find(c, nid).value];
      var cap := if output then OutCap(c, node) else InCap(c, node);
      var c' := Command(c, ClassWord(nid, CLASS_SET_AMP, SetPayload(output, left, idx, amp)), other).0;
      Command(c', ClassWord(nid, CLASS_GET_AMP, GetPayload(output, left, idx)), other).2
        == Some(Sanitised(NumSteps(cap), HasMute(cap), amp) as int)
  {
    var set_ := ClassWord(nid, CLASS_SET_AMP, SetPayload(output, left, idx, amp));
    var get := ClassWord(nid, CLASS_GET_AMP, GetPayload(output, left, idx));
    SetPayloadFields(output, left, idx, amp);
    GetPayloadFields(output, left, idx);
    ClassWordDecodes(nid, CLASS_SET_AMP, SetPayload(output, left, idx, amp));
    ClassWordDecodes(nid, CLASS_GET_AMP, GetPayload(output, left, idx));
    var cell := CellRead(c, Find(c, nid).value, get);
    assert Addresses(c, set_, cell);
    SetThenGet(c, set_, get, other);
  }

  lemma RunOne(c: Codec, cmd: nat, other: int)
    requires Valid(c)
    ensures Run(c, [cmd], other) == Command(c, cmd, other).0
  {
    assert [] + [cmd] == [cmd] && Run(c, [], other) == c;
    RunSnoc(c, [], cmd, other);
  }

  /** A get that reads a cell the command before has set. */
  lemma SetThenGet(c: Codec, set_: nat, get: nat, other: int)
    requires Valid(c) && VerbOf(get) == Some(GetAmp) && Nid(get) != 0 && Find(c, Nid(get)).Some?
    requires Addresses(c, set_, CellRead(c, Find(c, Nid(get)).value, get))
    ensures Command(Command(c, set_, other).0, get, other).2
         == Some(SanitisedFor(c, CellRead(c, Find(c, Nid(get)).value, get), set_) as int)
  {
    RunOne(c, set_, other);
    var cell := CellRead(c, Find(c, Nid(get)).value, get);
    assert LastSet(c, [set_], cell) == Some(set_);
    GetReadsLastSet(c, [set_], get, other);
  }

  /** The same for the selector of a widget that selects. */
  lemma SelectWordsRoundTrip(c: Codec, nid: nat, k: Byte, other: int)
    requires Valid(c) && 0 < nid < 0x80 && Find(c, nid).Some?
    requires var node := c.nodes[Find(c, nid).value];
      Type(node) != AC_WID_AUD_MIX && Type(node) != AC_WID_VOL_KNB && k < |node.conns|
    ensures var c' := Command(c, VerbWord(nid, VERB_SET_SEL, k), other).0;
      Command(c', VerbWord(nid, VERB_GET_SEL, 0), other).2 == Some(k as int)
  {
    var w := VerbWord(nid, VERB_SET_SEL, k);
    VerbWordDecodes(nid, VERB_SET_SEL, k);
    VerbWordDecodes(nid, VERB_GET_SEL, 0);
    CommandSameWidgets(c, w, other);
    FindFromSame(c, Command(c, w, other).0, nid, 0);
  }

  // ---- The invariant of the codec ----

  predicate PairOk(cap: nat, pair: AmpPair) {
    AmpOk(NumSteps(cap), HasMute(cap), pair.left) && AmpOk(NumSteps(cap), HasMute(cap), pair.right)
  }

  predicate NodeOk(c: Codec, node: Node)
    requires Valid(c)
  {
    && (forall i :: 0 <= i < HDA_MAX_NUM_CONNS ==>
          PairOk(OutCap(c, node), node.ampOut[i]) && PairOk(InCap(c, node), node.ampIn[i]))
    && (node.conns != [] ==> node.currConn < |node.conns|)
  }

  predicate WellFormed(c: Codec) {
    Valid(c) && forall r :: 0 <= r < |c.nodes| ==> NodeOk(c, c.nodes[r])
  }

  lemma AmpsSetOk(vals: AmpVals, idx: nat, cap: nat, val: nat)
    requires idx < HDA_MAX_NUM_CONNS
    requires forall i :: 0 <= i < HDA_MAX_NUM_CONNS ==> PairOk(cap, vals[i])
    ensures forall i :: 0 <= i < HDA_MAX_NUM_CONNS ==> PairOk(cap, AmpsSet(vals, idx, cap, val)[i])
  {
    SanitisedOk(NumSteps(cap), HasMute(cap), val % 0x100);
  }

  lemma ExecuteOk(c: Codec, node: Node, verb: Verb, cmd: nat, other: int)
    requires Valid(c) && NodeOk(c, node) && (verb.SetConfig? ==> verb.k < 4)
    ensures NodeOk(c, Execute(c, node, verb, cmd, other).0)
  {
    if verb.SetAmp? {
      var val := cmd % 0x1_0000;
      AmpsSetOk(node.ampOut, SetIndex(c, node, val, true), OutCap(c, node), val);
      AmpsSetOk(node.ampIn, SetIndex(c, node, val, false), InCap(c, node), val);
    }
  }

  /** Safety over every sequence of command words. */
  lemma {:induction false} RunWellFormed(c: Codec, cmds: seq<nat>, other: int)
    requires WellFormed(c)
    ensures WellFormed(Run(c, cmds, other))
    decreases |cmds|
  {
    if cmds != [] {
      CommandWellFormed(c, cmds[0], other);
      RunWellFormed(Command(c, cmds[0], other).0, cmds[1..], other);
    }
  }

  lemma CommandWellFormed(c: Codec, cmd: nat, other: int)
    requires WellFormed(c)
    ensures WellFormed(Command(c, cmd, other).0)
  {
    var c' := Command(c, cmd, other).0;
    CommandSameWidgets(c, cmd, other);
    assert SameWidget(c.nodes[0], c'.nodes[0]);
    if VerbOf(cmd).Some? && Nid(cmd) != 0 && Find(c, Nid(cmd)).Some? {
      ExecuteOk(c, c.nodes[Find(c, Nid(cmd)).value], VerbOf(cmd).value, cmd, other);
    }
    forall r | 0 <= r < |c'.nodes|
      ensures NodeOk(c', c'.nodes[r])
    {
      assert NodeOk(c, c'.nodes[r]);
    }
  }
}
