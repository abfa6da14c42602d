/** The proc file of a codec, printed from the responses of its verbs and parsed again. */
module DumpLaws {
  import opened Options
  import opened HdaCodec
  import opened Runs
  import opened Verbs
  import opened VerbLaws
  import opened WidgetText
  import AmpText
  import ConnText

  /** How many values the printer asks for. */
  function InCount(node: Node): (n: nat)
    ensures n <= HDA_MAX_NUM_CONNS
  {
    if Type(node) == AC_WID_PIN then 1 else |node.conns|
  }

  function OutCount(c: Codec, node: Node): (n: nat)
    ensures n <= HDA_MAX_NUM_CONNS
  {
    if Type(node) == AC_WID_PIN && c.pinAmpWorkaround then |node.conns| else 1
  }

  /** The responses to the amplifier-get verb, index by index and channel by channel. */
  function Dumped(c: Codec, node: Node, output: bool): Pairs {
    seq(if output then OutCount(c, node) else InCount(node), i requires 0 <= i < HDA_MAX_NUM_CONNS =>
      AmpPair(AmpGainMute(c, node, GetPayload(output, true, i)), AmpGainMute(c, node, GetPayload(output, false, i))))
  }

  /** So they are responses to command words. */
  lemma AmpReply(c: Codec, nid: nat, payload: Half, other: int)
    requires Valid(c) && 0 < nid < 0x80 && Find(c, nid).Some?
    ensures var node := c.nodes[Find(c, nid).value];
      Command(c, ClassWord(nid, CLASS_GET_AMP, payload), other) == (c, 0, Some(AmpGainMute(c, node, payload) as int))
  {
    ClassWordDecodes(nid, CLASS_GET_AMP, payload);
    AmpCommand(c, ClassWord(nid, CLASS_GET_AMP, payload), payload, other);
  }

  lemma AmpCommand(c: Codec, cmd: nat, payload: Half, other: int)
    requires Valid(c) && Nid(cmd) != 0 && Find(c, Nid(cmd)).Some?
    requires cmd / 0x100 % 0x1000 / 0x100 % 0x10 == CLASS_GET_AMP && cmd % 0x1_0000 == payload
    ensures Command(c, cmd, other) == (c, 0, Some(AmpGainMute(c, c.nodes[Find(c, Nid(cmd)).value], payload) as int))
  {
    var r := Find(c, Nid(cmd)).value;
    assert c.nodes[r := c.nodes[r]] == c.nodes;
    assert payload % 0x1_0000 == payload;
  }

  /** The printer is told what the widget holds. */
  lemma DumpedIsHeld(c: Codec, node: Node, output: bool)
    ensures Dumped(c, node, output)
         == (if output then node.ampOut[..OutCount(c, node)] else node.ampIn[..InCount(node)])
  {
    var held := if output then node.ampOut else node.ampIn;
    forall i | 0 <= i < |Dumped(c, node, output)|
      ensures Dumped(c, node, output)[i] == held[i]
    {
      PayloadFields(output, true, i);
      PayloadFields(output, false, i);
    }
  }

  lemma PayloadFields(output: bool, left: bool, i: nat)
    requires i < 0x20
    ensures var val := GetPayload(output, left, i) % 0x1_0000;
      val % 0x20 == i && Bit(val, AMP_GET_OUTPUT) == output && Bit(val, AMP_GET_LEFT) == left
  {
  }

  /** A piece that has nothing to do with amplifiers. */
  predicate NoAmps(p: Piece) {
    !p.InAmps? && !p.OutAmps?
  }

  predicate SameConns(f: Fields, f': Fields) {
    f'.numNodes == f.numNodes && f'.node == f.node && f'.currConn == f.currConn
  }

  lemma {:induction false} AmpsKept(s: State, pieces: seq<Piece>)
    requires s.mode != InList && forall k :: 0 <= k < |pieces| ==> NoAmps(pieces[k])
    ensures var s' := AfterAll(Some(s), pieces);
      s'.Some? && s'.value.fields.ampIn == s.fields.ampIn && s'.value.fields.ampOut == s.fields.ampOut
      && SameConns(s.fields, s'.value.fields)
    decreases |pieces|
  {
    if pieces != [] {
      if pieces[0].PcmCaps? {
        PcmKeeps(s.fields, pieces[0]);
      }
      AmpsKept(After(s, pieces[0]).value, pieces[1..]);
    }
  }

  lemma PcmKeeps(f: Fields, p: Piece)
    requires p.PcmCaps?
    ensures PcmStored(f, p.texts, 0) == f.(plain := PcmStored(f, p.texts, 0).plain)
  {
  }

  lemma AmpsBack(s: State, ins: Pairs, outs: Pairs)
    requires Reading(s) && |ins| != AmpText.WHOLE_PAIRS && |outs| < AmpText.WHOLE_PAIRS
    ensures var r := AfterAll(Some(s), [InAmps(ins, true), OutAmps(outs, true)]);
      && r.Some? && r.value.mode == InWidget
      && r.value.fields.ampIn == Restored(ins, AmpText.WHOLE_PAIRS, s.fields.ampIn)
      && r.value.fields.ampOut == Restored(outs, |outs|, s.fields.ampOut)
      && SameConns(s.fields, r.value.fields)
  {
    FoldedFirst(AfterAny, Some(s), InAmps(ins, true), [OutAmps(outs, true)]);
    FoldedOne(AfterAny, After(s, InAmps(ins, true)), OutAmps(outs, true));
    assert [InAmps(ins, true)] + [OutAmps(outs, true)] == [InAmps(ins, true), OutAmps(outs, true)];
    assert Restored([], AmpText.WHOLE_PAIRS, s.fields.ampIn) == s.fields.ampIn;
    assert Restored([], 0, s.fields.ampOut) == s.fields.ampOut;
  }

  /** The pieces around the amplifiers leave them alone. */
  lemma PiecesBack(s: State, a: seq<Piece>, ins: Pairs, outs: Pairs, b: seq<Piece>)
    requires s.mode == InWidget && |ins| != AmpText.WHOLE_PAIRS && |outs| < AmpText.WHOLE_PAIRS
    requires forall k :: 0 <= k < |a| ==> NoAmps(a[k]) && !Leaves(a[k])
    requires forall k :: 0 <= k < |b| ==> NoAmps(b[k]) && !Leaves(b[k])
    ensures var r := AfterAll(Some(s), a + [InAmps(ins, true), OutAmps(outs, true)] + b);
      && r.Some? && Reading(r.value)
      && r.value.fields.ampIn == Restored(ins, AmpText.WHOLE_PAIRS, s.fields.ampIn)
      && r.value.fields.ampOut == Restored(outs, |outs|, s.fields.ampOut)
      && SameConns(s.fields, r.value.fields)
  {
    var amps := [InAmps(ins, true), OutAmps(outs, true)];
    FoldedAppend(AfterAny, Some(s), a + amps, b);
    FoldedAppend(AfterAny, Some(s), a, amps);
    StaysExactly(s, a);
    AmpsKept(s, a);
    var s1 := AfterAll(Some(s), a).value;
    AmpsBack(s1, ins, outs);
    var s2 := AfterAll(Some(s1), amps).value;
    StaysExactly(s2, b);
    AmpsKept(s2, b);
  }

  /** What the printer writes of a stereo widget, from the responses of its verbs, gives the parser back
    * the amplifier values that were asked for, up to the 20th input pair, and of a widget with a
    * connection list that list, and the selection if the widget selects.
    */
  lemma DumpComesBack(c: Codec, node: Node, a: seq<Piece>, b: seq<Piece>, listed: bool, proc: Option<string>, f: Fields)
    requires InCount(node) != AmpText.WHOLE_PAIRS && OutCount(c, node) < AmpText.WHOLE_PAIRS
    requires forall k :: 0 <= k < |node.conns| ==> node.conns[k] < 0x100
    requires forall k :: 0 <= k < |a| ==> NoAmps(a[k]) && !Leaves(a[k])
    requires forall k :: 0 <= k < |b| ==> NoAmps(b[k]) && !Leaves(b[k])
    requires PrintableWidget(WidgetOf(c, node, a, b, listed, proc))
    ensures var r := LinesRead(Some(State(InWidget, f)), WidgetLines(WidgetOf(c, node, a, b, listed, proc)));
      && r.Some?
      && r.value.fields.ampIn == Restored(node.ampIn[..InCount(node)], AmpText.WHOLE_PAIRS, f.ampIn)
      && r.value.fields.ampOut == Restored(node.ampOut[..OutCount(c, node)], OutCount(c, node), f.ampOut)
      && ListBack(node, listed, f, r.value.fields)
  {
    var w := WidgetOf(c, node, a, b, listed, proc);
    WidgetRead(f, w);
    DumpedIsHeld(c, node, false);
    DumpedIsHeld(c, node, true);
    PiecesBack(State(InWidget, f), a, Dumped(c, node, false), Dumped(c, node, true), b);
  }

  /** What is parsed of the connections of a widget: its list and what of its selection is printed. */
  predicate ListBack(node: Node, listed: bool, f: Fields, f': Fields) {
    if !listed then SameConns(f, f')
    else
      && f'.numNodes == |node.conns| && f'.node[..|node.conns|] == node.conns
      && f'.currConn == if Selects(node) then node.currConn else f.currConn
  }

  /** The printer stars the selection, which it does not for mixers, power widgets and volume knobs. */
  predicate Selects(node: Node) {
    && |node.conns| > 1 && node.currConn < |node.conns|
    && node.wcaps / 0x10_0000 % 16 != 2 && node.wcaps / 0x10_0000 % 16 != 5 && node.wcaps / 0x10_0000 % 16 != 6
  }

  function ListOf(node: Node, listed: bool): Option<ConnList> {
    if listed then Some(ConnList(Type(node), node.conns, node.currConn)) else None
  }

  function WidgetOf(c: Codec, node: Node, a: seq<Piece>, b: seq<Piece>, listed: bool, proc: Option<string>): Widget {
    Widget(a + [InAmps(Dumped(c, node, false), true), OutAmps(Dumped(c, node, true), true)] + b,
           ListOf(node, listed), proc)
  }
}
