/** The verbs of the codec that carry state: amplifiers, connection selectors, coefficients and
  * the parameters that describe them. Command words are 32 bits wide: the NID from bit 20, the
  * verb from bit 8, and a payload of 8 bits, or 16 when only the top 4 bits of the verb count.
  */
module Verbs {
  import opened Options
  import opened HdaCodec

  const ENXIO: int := 6
  const EINVAL: int := 22

  type Cmd = w: nat | w < 0x1_0000_0000

  // Bits of an amplifier payload.
  const AMP_SET_RIGHT: nat := 0x1000
  const AMP_SET_LEFT: nat := 0x2000
  const AMP_SET_INPUT: nat := 0x4000
  const AMP_SET_OUTPUT: nat := 0x8000
  const AMP_GET_LEFT: nat := 0x2000
  const AMP_GET_OUTPUT: nat := 0x8000

  // ---- Amplifiers ----

  /** The capability word of an amplifier; its fields do not overlap. */
  function CapWord(caps: AmpCaps): nat {
    caps.ofs + 0x100 * caps.nsteps + 0x1_0000 * caps.stepsize + (if caps.mute then 0x8000_0000 else 0)
  }

  function ParAmpCap(nodeCaps: AmpCaps, afgCaps: AmpCaps): nat {
    CapWord(if nodeCaps.override then nodeCaps else afgCaps)
  }

  function NumSteps(cap: nat): Byte {
    cap / 0x100 % 0x100
  }

  predicate HasMute(cap: nat) {
    cap / 0x8000_0000 % 2 == 1
  }

  /** `w` with the mute bit of `amp` or-ed in. */
  function WithMute(w: nat, amp: nat): nat {
    if w / 0x80 % 2 == 1 then w else w + amp / 0x80 % 2 * 0x80
  }

  /** What is stored for a requested value. A gain out of range becomes `nsteps - 1`, computed in
    * 32 bits, and the low byte is kept.
    */
  function Sanitised(nsteps: Byte, hasMute: bool, amp: Byte): Byte {
    var ranged := if amp % 0x80 <= nsteps then amp else WithMute((nsteps + 0xffff_ffff) % 0x1_0000_0000, amp);
    (if ranged / 0x80 % 2 == 1 && !hasMute then ranged - 0x80 else ranged) % 0x100
  }

  function SetPair(pair: AmpPair, val: nat, amp: Byte): AmpPair {
    AmpPair(if Bit(val, AMP_SET_LEFT) then amp else pair.left, if Bit(val, AMP_SET_RIGHT) then amp else pair.right)
  }

  function OutIndex(node: Node, workaround: bool, idx: nat): (r: nat)
    ensures r < HDA_MAX_NUM_CONNS
  {
    if Type(node) == AC_WID_PIN && workaround && idx < |node.conns| then idx else 0
  }

  function InIndex(node: Node, idx: nat): (r: nat)
    ensures r < HDA_MAX_NUM_CONNS
  {
    if Type(node) != AC_WID_PIN && idx < |node.conns| then idx else 0
  }

  function OutCap(c: Codec, node: Node): nat
    requires Valid(c)
  {
    ParAmpCap(node.ampOutCaps, c.nodes[0].ampOutCaps)
  }

  function InCap(c: Codec, node: Node): nat
    requires Valid(c)
  {
    ParAmpCap(node.ampInCaps, c.nodes[0].ampInCaps)
  }

  function AmpsSet(vals: AmpVals, idx: nat, cap: nat, val: nat): AmpVals
    requires idx < HDA_MAX_NUM_CONNS
  {
    vals[idx := SetPair(vals[idx], val, Sanitised(NumSteps(cap), HasMute(cap), val % 0x100))]
  }

  /** The index that a set command takes effect at. The input side goes on with what the output
    * side, if it is set as well, made of the index.
    */
  function SetIndex(c: Codec, node: Node, val: nat, output: bool): (r: nat)
    ensures r < HDA_MAX_NUM_CONNS
  {
    var idx := val / 0x100 % 0x10;
    if output then OutIndex(node, c.pinAmpWorkaround, idx)
    else InIndex(node, if Bit(val, AMP_SET_OUTPUT) then OutIndex(node, c.pinAmpWorkaround, idx) else idx)
  }

  function AmpGainMuteSet(c: Codec, node: Node, cmd: nat): Node
    requires Valid(c)
  {
    var val := cmd % 0x1_0000;
    var node1 := if !Bit(val, AMP_SET_OUTPUT) then node
      else node.(ampOut := AmpsSet(node.ampOut, SetIndex(c, node, val, true), OutCap(c, node), val));
    if !Bit(val, AMP_SET_INPUT) then node1
    else node1.(ampIn := AmpsSet(node.ampIn, SetIndex(c, node, val, false), InCap(c, node), val))
  }

  function AmpGainMute(c: Codec, node: Node, cmd: nat): Byte {
    var val := cmd % 0x1_0000;
    var idx := val % 0x20;
    var pair := if Bit(val, AMP_GET_OUTPUT) then node.ampOut[OutIndex(node, c.pinAmpWorkaround, idx)]
      else node.ampIn[InIndex(node, idx)];
    if Bit(val, AMP_GET_LEFT) then pair.left else pair.right
  }

  // ---- Selectors, pins, connection lists, coefficients ----

  function PinCtlSet(node: Node, cmd: nat): Node {
    node.(pinctl := cmd % 0x100)
  }

  /** Byte `k` of the word replaced. */
  function ByteSet(w: nat, k: nat, b: Byte): nat
    requires k < 4
  {
    if k == 0 then w / 0x100 * 0x100 + b
    else if k == 1 then w / 0x1_0000 * 0x1_0000 + b * 0x100 + w % 0x100
    else if k == 2 then w / 0x100_0000 * 0x100_0000 + b * 0x1_0000 + w % 0x1_0000
    else w / 0x1_0000_0000 * 0x1_0000_0000 + b * 0x100_0000 + w % 0x100_0000
  }

  function ConfigSet(node: Node, k: nat, cmd: nat): Node
    requires k < 4
  {
    node.(pinDefault := ByteSet(node.pinDefault, k, cmd % 0x100))
  }

  function ConnectSet(node: Node, cmd: nat): Node {
    if Type(node) == AC_WID_AUD_MIX || Type(node) == AC_WID_VOL_KNB || cmd % 0x100 >= |node.conns| then node
    else node.(currConn := cmd % 0x100)
  }

  /** The bitwise or of two words. */
  function Or(a: nat, b: nat): nat
    decreases a + b
  {
    if a == 0 then b else if b == 0 then a
    else 2 * Or(a / 2, b / 2) + if a % 2 == 1 || b % 2 == 1 then 1 else 0
  }

  /** `val` with up to `n` entries from `idx` on or-ed in, each shifted by one byte more than the last
    * within 32 bits.
    */
  function PackFrom(conns: Conns, idx: nat, weight: nat, n: nat, val: nat): nat
    decreases n
  {
    if n == 0 || idx >= |conns| then val
    else PackFrom(conns, idx + 1, 0x100 * weight, n - 1, Or(val, conns[idx] * weight % 0x1_0000_0000))
  }

  function ConnectList(node: Node, cmd: nat): nat {
    PackFrom(node.conns, cmd % 0x100, 1, 4, 0)
  }

  function FindCoef(tbl: seq<Coef>, idx: nat, k: nat): (r: Option<nat>)
    requires k <= |tbl|
    ensures r.Some? ==> k <= r.value < |tbl| && tbl[r.value].idx == idx
    ensures r.Some? ==> forall j :: k <= j < r.value ==> tbl[j].idx != idx
    ensures r.None? ==> forall j :: k <= j < |tbl| ==> tbl[j].idx != idx
    decreases |tbl| - k
  {
    if k == |tbl| then None
    else if tbl[k].idx == idx then Some(k)
    else FindCoef(tbl, idx, k + 1)
  }

  function CoefIndexSet(node: Node, idx: Half): Node {
    node.(coefIdx := idx)
  }

  /** The index of a new entry is cut to 16 bits, that of the widget is not. */
  function CoefWritten(tbl: seq<Coef>, idx: nat, value: Half): seq<Coef> {
    match FindCoef(tbl, idx, 0)
    case Some(k) => tbl[k := tbl[k].(value := value)]
    case None => [Coef(idx % 0x1_0000, value)] + tbl
  }

  function CoefAt(tbl: seq<Coef>, idx: nat): Half {
    match FindCoef(tbl, idx, 0)
    case Some(k) => tbl[k].value
    case None => 0
  }

  function ProcCoefSet(node: Node, value: Half): Node {
    node.(coefTbl := CoefWritten(node.coefTbl, node.coefIdx, value), coefIdx := node.coefIdx + 1)
  }

  function ProcCoefRead(node: Node): (Node, Half) {
    (node.(coefIdx := node.coefIdx + 1), CoefAt(node.coefTbl, node.coefIdx))
  }

  // ---- Dispatch ----

  /** The verbs modelled one by one; `OtherVerb` stands for a known verb that only touches parts
    * of the codec outside this model.
    */
  datatype Verb =
    | SetAmp | GetAmp | SetCoefIdx | GetCoefIdx | SetCoef | GetCoef
    | SetSel | GetSel | GetConns | GetParam
    | SetPinCtl | GetPinCtl | SetConfig(k: nat) | GetConfig
    | OtherVerb(field: bool)

  const OTHER_VERBS: set<nat> := {
    0x705, 0x706, 0x708, 0x709, 0x70c, 0x70d, 0x70e, 0x730, 0x731, 0x7ff,
    0xf05, 0xf06, 0xf08, 0xf09, 0xf0c, 0xf0d, 0xf20, 0xf2e }

  /** Processing state, SDI select, beep, volume knob, GPIO, channel count, DIP and ASP slots: their
    * handlers look into the widget record without asking whether there is one.
    */
  const FIELD_VERBS: set<nat> := {
    0x703, 0x704, 0x70a, 0x70f, 0x715, 0x716, 0x717, 0x718, 0x719, 0x71a, 0x72d, 0x732, 0x734,
    0xf03, 0xf04, 0xf0a, 0xf0f, 0xf15, 0xf16, 0xf17, 0xf18, 0xf19, 0xf1a, 0xf2d, 0xf32, 0xf34 }

  /** The class of the verb decides if it is in the class table, else the whole verb. */
  function FindMatchingVerb(verb: nat): (r: Option<Verb>)
    ensures r.Some? && r.value.SetConfig? ==> r.value.k < 4
  {
    var class_ := verb / 0x100 % 0x10;
    if class_ == 2 || class_ == 10 then Some(OtherVerb(false))
    else if class_ == 3 then Some(SetAmp)
    else if class_ == 4 then Some(SetCoef)
    else if class_ == 5 then Some(SetCoefIdx)
    else if class_ == 11 then Some(GetAmp)
    else if class_ == 12 then Some(GetCoef)
    else if class_ == 13 then Some(GetCoefIdx)
    else if verb == 0x701 then Some(SetSel)
    else if verb == 0xf00 then Some(GetParam)
    else if verb == 0xf01 then Some(GetSel)
    else if verb == 0xf02 then Some(GetConns)
    else if verb == 0x707 then Some(SetPinCtl)
    else if verb == 0xf07 then Some(GetPinCtl)
    else if 0x71c <= verb <= 0x71f then Some(SetConfig(verb - 0x71c))
    else if verb == 0xf1c then Some(GetConfig)
    else if verb in OTHER_VERBS then Some(OtherVerb(false))
    else if verb in FIELD_VERBS then Some(OtherVerb(true))
    else None
  }

  function Parameter(c: Codec, node: Node, cmd: nat, other: int): int
    requires Valid(c)
  {
    var par := cmd % 0x100;
    if par == 0x0d then InCap(c, node)
    else if par == 0x0e then |node.conns|
    else if par == 0x12 then OutCap(c, node)
    else other
  }

  /** A verb on a widget: its new record and the response, `other` where the model has none. */
  function Execute(c: Codec, node: Node, verb: Verb, cmd: nat, other: int): (Node, int)
    requires Valid(c) && (verb.SetConfig? ==> verb.k < 4)
  {
    match verb
    case SetAmp => (AmpGainMuteSet(c, node, cmd), 0)
    case GetAmp => (node, AmpGainMute(c, node, cmd))
    case SetCoefIdx => (CoefIndexSet(node, cmd % 0x1_0000), 0)
    case GetCoefIdx => (node, node.coefIdx)
    case SetCoef => (ProcCoefSet(node, cmd % 0x1_0000), 0)
    case GetCoef => ProcCoefRead(node)
    case SetSel => (ConnectSet(node, cmd), 0)
    case GetSel => (node, node.currConn)
    case GetConns => (node, ConnectList(node, cmd))
    case GetParam => (node, Parameter(c, node, cmd, other))
    case SetPinCtl => (PinCtlSet(node, cmd), 0)
    case GetPinCtl => (node, node.pinctl)
    case SetConfig(k) => (ConfigSet(node, k, cmd), 0)
    case GetConfig => (node, node.pinDefault)
    case OtherVerb(_) => (node, other)
  }

  function Nid(cmd: nat): nat {
    cmd / 0x10_0000 % 0x80
  }

  function VerbOf(cmd: nat): Option<Verb> {
    FindMatchingVerb(cmd / 0x100 % 0x1000)
  }

  /** The handlers that look into the widget record without asking whether there is one, among them
    * that of the GPIO capability parameter.
    */
  predicate NeedsNode(verb: Verb, cmd: nat) {
    || verb.SetCoefIdx? || verb.GetCoefIdx? || verb.SetCoef? || verb.GetCoef?
    || (verb.OtherVerb? && verb.field)
    || (verb.GetParam? && cmd % 0x100 == 0x11)
  }

  /** The commands on which the emulator itself faults: there is no widget, but the handler needs one. */
  predicate Faults(cmd: nat) {
    Nid(cmd) == 0 && VerbOf(cmd).Some? && NeedsNode(VerbOf(cmd).value, cmd)
  }

  /** The response without a widget. */
  function RootResponse(verb: Verb, cmd: nat, other: int): int {
    if verb.OtherVerb? || (verb.GetParam? && cmd % 0x100 !in {0x0d, 0x0e, 0x12}) then other else 0
  }

  /** The new codec, the error code, and the response if there is one. No codec changes where the
    * emulator faults; the response that stands there means nothing.
    */
  function Command(c: Codec, cmd: nat, other: int): (Codec, int, Option<int>)
    requires Valid(c)
  {
    if VerbOf(cmd).None? then (c, -ENXIO, None)
    else if Nid(cmd) == 0 then (c, 0, Some(RootResponse(VerbOf(cmd).value, cmd, other)))
    else if Find(c, Nid(cmd)).None? then (c, -EINVAL, None)
    else
      var r := Find(c, Nid(cmd)).value;
      var (node, rc) := Execute(c, c.nodes[r], VerbOf(cmd).value, cmd, other);
      (c.(nodes := c.nodes[r := node]), 0, Some(rc))
  }

  // ---- The records ----

  class XhdaNode {
    const nid: nat
    const wcaps: nat
    const ampInCaps: AmpCaps
    const ampOutCaps: AmpCaps
    const conns: Conns
    var pinctl: nat
    var pinDefault: nat
    var ampIn: AmpVals
    var ampOut: AmpVals
    var currConn: nat
    var coefIdx: nat
    var coefTbl: seq<Coef>

    constructor (n: Node)
      ensures View() == n
    {
      nid, wcaps, pinctl, pinDefault := n.nid, n.wcaps, n.pinctl, n.pinDefault;
      ampInCaps, ampOutCaps, conns := n.ampInCaps, n.ampOutCaps, n.conns;
      ampIn, ampOut, currConn, coefIdx, coefTbl := n.ampIn, n.ampOut, n.currConn, n.coefIdx, n.coefTbl;
    }

    function View(): Node
      reads this
    {
      Node(nid, wcaps, pinctl, pinDefault, ampInCaps, ampOutCaps, ampIn, ampOut, conns, currConn, coefIdx, coefTbl)
    }

    static method SetAmp(vals: AmpVals, idx: nat, ampcap: nat, val: nat) returns (vals': AmpVals)
      requires idx < HDA_MAX_NUM_CONNS
      ensures vals' == AmpsSet(vals, idx, ampcap, val)
    {
      var nsteps := ampcap / 0x100 % 0x100;
      var hasMute := ampcap / 0x8000_0000 % 2;
      var ampval := val % 0x100;
      if ampval % 0x80 > nsteps {
        ampval := WithMute((nsteps + 0xffff_ffff) % 0x1_0000_0000, ampval);
      }
      if ampval / 0x80 % 2 == 1 && hasMute == 0 {
        ampval := ampval - 0x80;
      }
      vals' := vals;
      if Bit(val, AMP_SET_LEFT) {
        vals' := vals'[idx := vals'[idx].(left := ampval % 0x100)];
      }
      if Bit(val, AMP_SET_RIGHT) {
        vals' := vals'[idx := vals'[idx].(right := ampval % 0x100)];
      }
    }

    method SetAmpGainMute(ghost c: Codec, workaround: bool, inCap: nat, outCap: nat, cmd: nat)
      requires Valid(c) && c.pinAmpWorkaround == workaround && inCap == InCap(c, View()) && outCap == OutCap(c, View())
      modifies this`ampIn, this`ampOut
      ensures View() == AmpGainMuteSet(c, old(View()), cmd)
    {
      var ampval := cmd % 0x1_0000;
      var idx := ampval / 0x100 % 0x10;
      var type_ := Type(View());
      if Bit(ampval, AMP_SET_OUTPUT) {
        if idx != 0 && (type_ != AC_WID_PIN || !workaround || idx >= |conns|) {
          idx := 0;
        }
        ampOut := SetAmp(ampOut, idx, outCap, ampval);
      }
      if Bit(ampval, AMP_SET_INPUT) {
        if (type_ == AC_WID_PIN && idx != 0) || (type_ != AC_WID_PIN && idx >= |conns|) {
          idx := 0;
        }
        ampIn := SetAmp(ampIn, idx, inCap, ampval);
      }
    }

    method GetAmpGainMute(ghost c: Codec, workaround: bool, cmd: nat) returns (amp: Byte)
      requires c.pinAmpWorkaround == workaround
      ensures amp == AmpGainMute(c, View(), cmd)
    {
      var ampval := cmd % 0x1_0000;
      var idx := ampval % 0x20;
      var type_ := Type(View());
      var pair;
      if Bit(ampval, AMP_GET_OUTPUT) {
        if idx != 0 && (type_ != AC_WID_PIN || !workaround || idx >= |conns|) {
          idx := 0;
        }
        pair := ampOut[idx];
      } else {
        if (type_ == AC_WID_PIN && idx != 0) || (type_ != AC_WID_PIN && idx >= |conns|) {
          idx := 0;
        }
        pair := ampIn[idx];
      }
      amp := if Bit(ampval, AMP_GET_LEFT) then pair.left else pair.right;
    }

    method SetConnectSel(cmd: nat)
      modifies this`currConn
      ensures View() == ConnectSet(old(View()), cmd)
    {
      var widType := Type(View());
      if widType == AC_WID_AUD_MIX || widType == AC_WID_VOL_KNB {
        return;
      }
      var sel := cmd % 0x100;
      if sel < |conns| {
        currConn := sel;
      }
    }

    method GetConnectList(cmd: nat) returns (val: nat)
      ensures val == ConnectList(View(), cmd)
    {
      var idx: nat := cmd % 0x100;
      if idx >= |conns| {
        return 0;
      }
      val := 0;
      var i: nat, weight: nat := 0, 1;
      while i < 4
        invariant i <= 4
        invariant ConnectList(View(), cmd) == PackFrom(conns, idx, weight, 4 - i, val)
      {
        if idx >= |conns| {
          break;
        }
        val := Or(val, conns[idx] * weight % 0x1_0000_0000);
        i, idx, weight := i + 1, idx + 1, 0x100 * weight;
      }
    }

    method SetCoefIndex(cmd: nat)
      modifies this`coefIdx
      ensures View() == CoefIndexSet(old(View()), cmd % 0x1_0000)
    {
      coefIdx := cmd % 0x1_0000;
    }

    method FindProcCoef(idx: nat) returns (k: Option<nat>)
      ensures k == FindCoef(coefTbl, idx, 0)
    {
      var i := 0;
      while i < |coefTbl|
        invariant i <= |coefTbl| && FindCoef(coefTbl, idx, 0) == FindCoef(coefTbl, idx, i)
      {
        if coefTbl[i].idx == idx {
          return Some(i);
        }
        i := i + 1;
      }
      return None;
    }

    method SetProcCoef(cmd: nat)
      modifies this`coefTbl, this`coefIdx
      ensures View() == ProcCoefSet(old(View()), cmd % 0x1_0000)
    {
      var k := FindProcCoef(coefIdx);
      if k.None? {
        coefTbl := [Coef(coefIdx % 0x1_0000, 0)] + coefTbl;
        k := Some(0);
      }
      coefTbl := coefTbl[k.value := coefTbl[k.value].(value := cmd % 0x1_0000)];
      coefIdx := coefIdx + 1;
    }

    method GetProcCoef() returns (val: Half)
      modifies this`coefIdx
      ensures (View(), val) == ProcCoefRead(old(View()))
    {
      var k := FindProcCoef(coefIdx);
      coefIdx := coefIdx + 1;
      val := if k.Some? then coefTbl[k.value].value else 0;
    }

    method Respond(ghost c: Codec, workaround: bool, inCap: nat, outCap: nat, verb: Verb, cmd: nat, other: int)
      returns (rc: int)
      requires Valid(c) && c.pinAmpWorkaround == workaround && inCap == InCap(c, View()) && outCap == OutCap(c, View())
      requires verb.SetConfig? ==> verb.k < 4
      modifies this
      ensures var x := Execute(c, old(View()), verb, cmd, other); View() == x.0 && rc == x.1
    {
      rc := 0;
      match verb
      case SetAmp => SetAmpGainMute(c, workaround, inCap, outCap, cmd);
      case GetAmp => rc := GetAmpGainMute(c, workaround, cmd);
      case SetCoefIdx => SetCoefIndex(cmd);
      case GetCoefIdx => rc := coefIdx;
      case SetCoef => SetProcCoef(cmd);
      case GetCoef => rc := GetProcCoef();
      case SetSel => SetConnectSel(cmd);
      case GetSel => rc := currConn;
      case GetConns => rc := GetConnectList(cmd);
      case GetParam =>
        var par := cmd % 0x100;
        rc := if par == 0x0d then inCap else if par == 0x0e then |conns| else if par == 0x12 then outCap else other;
      case SetPinCtl => pinctl := cmd % 0x100;
      case GetPinCtl => rc := pinctl;
      case SetConfig(k) => pinDefault := ByteSet(pinDefault, k, cmd % 0x100);
      case GetConfig => rc := pinDefault;
      case OtherVerb(_) => rc := other;
    }
  }

  class XhdaCodec {
    const nodes: seq<XhdaNode>
    const afgLen: nat
    const pinAmpWorkaround: bool
    var rc: int
    ghost var views: seq<Node>

    constructor (nodes: seq<XhdaNode>, afgLen: nat, workaround: bool, ghost views: seq<Node>)
      requires 1 <= afgLen <= |nodes| == |views|
      requires forall i, j :: 0 <= i < j < |nodes| ==> nodes[i] != nodes[j]
      requires forall i :: 0 <= i < |nodes| ==> nodes[i].View() == views[i]
      ensures Consistent() && View() == Codec(views, afgLen, workaround) && this.nodes == nodes
    {
      this.nodes, this.afgLen, pinAmpWorkaround, rc := nodes, afgLen, workaround, 0;
      this.views := views;
    }

    ghost predicate Consistent()
      reads this, nodes
    {
      && 1 <= afgLen <= |nodes| == |views|
      && (forall i, j :: 0 <= i < j < |nodes| ==> nodes[i] != nodes[j])
      && (forall i :: 0 <= i < |nodes| ==> nodes[i].View() == views[i])
    }

    ghost function View(): Codec
      reads this
    {
      Codec(views, afgLen, pinAmpWorkaround)
    }

    /** The loop over the two chains. */
    method FindNode(nid: nat) returns (found: Option<Ref>)
      requires Consistent()
      ensures found == Find(View(), nid)
    {
      var r: Ref := 0;
      while r < |nodes|
        invariant r <= |nodes|
        invariant Find(View(), nid) == FindFrom(View(), nid, r)
      {
        if nodes[r].nid == nid {
          return Some(r);
        }
        r := r + 1;
      }
      return None;
    }

    /** `fault` tells that the handler dereferences a missing record; then nothing is said of `err`. */
    method HdaCmd(cmd: Cmd, other: int) returns (err: int, fault: bool)
      requires Consistent()
      modifies this`rc, this`views, nodes
      ensures Consistent() && (fault <==> Faults(cmd))
      ensures !fault ==> var r := Command(old(View()), cmd, other);
        View() == r.0 && err == r.1 && rc == (if r.2.Some? then r.2.value else old(rc))
    {
      var nid := cmd / 0x10_0000 % 0x80;
      var tbl := FindMatchingVerb(cmd / 0x100 % 0x1000);
      if tbl.None? {
        return -ENXIO, false;
      }
      if nid == 0 {
        if NeedsNode(tbl.value, cmd) {
          return 0, true;
        }
        rc := RootResponse(tbl.value, cmd, other);
        return 0, false;
      }
      var hit := FindNode(nid);
      if hit.None? {
        return -EINVAL, false;
      }
      Handle(hit.value, tbl.value, cmd, other);
      return 0, false;
    }

    /** The call through the verb table. */
    method Handle(r: Ref, verb: Verb, cmd: nat, other: int)
      requires Consistent() && r < |nodes| && (verb.SetConfig? ==> verb.k < 4)
      modifies this`rc, this`views, nodes[r]
      ensures Consistent()
      ensures var x := Execute(old(View()), old(views)[r], verb, cmd, other);
        views == old(views)[r := x.0] && rc == x.1
    {
      var node, afg := nodes[r], nodes[0];
      var inCap := ParAmpCap(node.ampInCaps, afg.ampInCaps);
      var outCap := ParAmpCap(node.ampOutCaps, afg.ampOutCaps);
      rc := node.Respond(View(), pinAmpWorkaround, inCap, outCap, verb, cmd, other);
      views := views[r := node.View()];
    }
  }
}
