/** Signal routes through a dump: which of them the parsed codec still has. */
module DumpRoutes {
  import opened Options
  import opened HdaCodec
  import opened Runs
  import opened WidgetText
  import opened DumpLaws
  import Routes
  import RouteLaws
  import NodeList
  import PinText

  /** The rest of what is printed of a widget: for a pin its capabilities, then the text behind the
    * numbers and the fields between them.
    */
  datatype Part = Part(
    text: string,
    before: seq<Piece>,
    cap: PinText.Word,
    capText: string,
    afterCap: seq<Piece>,
    cfgText: string,
    afterCfg: seq<Piece>,
    ctlText: string,
    after: seq<Piece>,
    listed: bool,
    proc: Option<string>)

  predicate NoPins(p: Piece) {
    !p.PinCaps? && !p.PinConfig? && !p.PinControl?
  }

  predicate Plainly(pieces: seq<Piece>) {
    forall k :: 0 <= k < |pieces| ==> NoPins(pieces[k]) && !Leaves(pieces[k]) && !RunsOff(pieces[k])
  }

  /** A record whose numbers have the width of those in the source. */
  predicate Sized(node: Node) {
    && node.nid < 0x100 && node.wcaps < 0x1_0000_0000
    && node.pinctl < 0x1_0000_0000 && node.pinDefault < 0x1_0000_0000
    && forall k :: 0 <= k < |node.conns| ==> node.conns[k] < 0x100
  }

  function PinPieces(node: Node, p: Part): seq<Piece>
    requires Sized(node)
  {
    [PinCaps(p.cap, p.capText)] + p.afterCap + [PinConfig(node.pinDefault, p.cfgText)] + p.afterCfg
      + [PinControl(node.pinctl, p.ctlText)]
  }

  function DumpOf(node: Node, p: Part): Widget
    requires Sized(node)
  {
    Widget(p.before + (if Type(node) == AC_WID_PIN then PinPieces(node, p) else []) + p.after,
           ListOf(node, p.listed), p.proc)
  }

  /** A widget is printed with its list, unless that is empty, and no line takes the parser out early. */
  ghost predicate Dumpable(node: Node, p: Part) {
    && Sized(node) && (!p.listed ==> node.conns == [])
    && Plainly(p.before) && Plainly(p.afterCap) && Plainly(p.afterCfg) && Plainly(p.after)
    && PrintableWidget(DumpOf(node, p))
  }

  // ---- One widget ----

  /** The fields that routes depend on stay as they are. */
  predicate SameHopFields(f: Fields, f': Fields) {
    SameConns(f, f') && f'.pincap == f.pincap && f'.pinctl == f.pinctl && f'.pinDefault == f.pinDefault
  }

  lemma {:induction false} HopsKept(s: State, pieces: seq<Piece>)
    requires Reading(s) && Plainly(pieces)
    ensures var s' := AfterAll(Some(s), pieces);
      s'.Some? && Reading(s'.value) && SameHopFields(s.fields, s'.value.fields)
    decreases |pieces|
  {
    if pieces != [] {
      if pieces[0].PcmCaps? {
        PcmKeeps(s.fields, pieces[0]);
      }
      HopsKept(After(s, pieces[0]).value, pieces[1..]);
    }
  }

  lemma PinsBack(s: State, node: Node, p: Part)
    requires Reading(s) && Sized(node) && Plainly(p.afterCap) && Plainly(p.afterCfg)
    ensures var s' := AfterAll(Some(s), PinPieces(node, p));
      && s'.Some? && Reading(s'.value) && SameConns(s.fields, s'.value.fields)
      && s'.value.fields.pinDefault == node.pinDefault
      && s'.value.fields.pinctl == if p.cap != 0 then PinText.Verified(p.cap, node.pinctl) else node.pinctl
  {
    var caps, cfg := PinCaps(p.cap, p.capText), PinConfig(node.pinDefault, p.cfgText);
    var ctl := PinControl(node.pinctl, p.ctlText);
    FoldedAppend(AfterAny, Some(s), [caps] + p.afterCap + [cfg] + p.afterCfg, [ctl]);
    FoldedAppend(AfterAny, Some(s), [caps] + p.afterCap + [cfg], p.afterCfg);
    FoldedAppend(AfterAny, Some(s), [caps] + p.afterCap, [cfg]);
    FoldedAppend(AfterAny, Some(s), [caps], p.afterCap);
    FoldedOne(AfterAny, Some(s), caps);
    var s1 := After(s, caps).value;
    HopsKept(s1, p.afterCap);
    var s2 := AfterAll(Some(s1), p.afterCap).value;
    FoldedOne(AfterAny, Some(s2), cfg);
    var s3 := After(s2, cfg).value;
    HopsKept(s3, p.afterCfg);
    var s4 := AfterAll(Some(s3), p.afterCfg).value;
    FoldedOne(AfterAny, Some(s4), ctl);
  }

  /** All pieces of a dump. */
  lemma DumpPieces(s: State, node: Node, p: Part)
    requires s.mode == InWidget && Dumpable(node, p)
    ensures var s' := AfterAll(Some(s), DumpOf(node, p).pieces);
      && s'.Some? && Reading(s'.value) && SameConns(s.fields, s'.value.fields)
      && (Type(node) != AC_WID_PIN ==> SameHopFields(s.fields, s'.value.fields))
      && (Type(node) == AC_WID_PIN ==> s'.value.fields.pinDefault == node.pinDefault)
      && (Type(node) == AC_WID_PIN ==>
            s'.value.fields.pinctl == if p.cap != 0 then PinText.Verified(p.cap, node.pinctl) else node.pinctl)
  {
    var pins := if Type(node) == AC_WID_PIN then PinPieces(node, p) else [];
    FoldedAppend(AfterAny, Some(s), p.before + pins, p.after);
    FoldedAppend(AfterAny, Some(s), p.before, pins);
    HopsKept(s, p.before);
    var s1 := AfterAll(Some(s), p.before).value;
    if Type(node) == AC_WID_PIN {
      PinsBack(s1, node, p);
    }
    HopsKept(AfterAll(Some(s1), pins).value, p.after);
  }

  /** The record that the parser makes of a header and the fields behind it. */
  function RecordOf(nid: nat, wcaps: nat, f: Fields): Node
    requires f.numNodes <= HDA_MAX_NUM_CONNS
  {
    var caps := AmpCaps(0, 0, 0, false, false);
    Node(nid, wcaps, f.pinctl, f.pinDefault, caps, caps, f.ampIn, f.ampOut, f.node[..f.numNodes], f.currConn, 0, [])
  }

  /** A whole widget, read from its first line on; `None` if the parser stops or leaves its buffers. */
  function Reread(node: Node, p: Part): Option<Node>
    requires Sized(node)
  {
    match PinText.NodeRead(PinText.NodeLine(node.nid, node.wcaps, p.text))
    case None => None
    case Some((nid, wcaps)) =>
      match LinesRead(Some(State(InWidget, NewFields())), WidgetLines(DumpOf(node, p)))
      case None => None
      case Some(s) => if s.fields.numNodes > HDA_MAX_NUM_CONNS then None else Some(RecordOf(nid, wcaps, s.fields))
  }

  /** The pin asks for nothing it cannot do, and the selection is printed, or not needed, or the first. */
  predicate HopsBack(node: Node, cap: nat) {
    && (node.wcaps / 0x10_0000 % 16 == 4 ==> cap == 0 || PinText.Allowed(cap, node.pinctl))
    && (node.wcaps / 0x10_0000 % 16 != 2 && node.conns != [] ==> Selects(node) || node.currConn == 0)
  }

  /** Printing a widget and parsing that gives a record, and one through which the same hops lead
    * exactly if all that they depend on comes back.
    */
  lemma HopsComeBackExactly(node: Node, p: Part)
    requires Dumpable(node, p)
    ensures Reread(node, p).Some?
    ensures RouteLaws.SameHops(node, Reread(node, p).value) <==> HopsBack(node, p.cap)
  {
    PinText.NodeRoundTrip(node.nid, node.wcaps, p.text);
    WidgetRead(NewFields(), DumpOf(node, p));
    DumpPieces(State(InWidget, NewFields()), node, p);
    PinText.VerifiedExactly(p.cap, node.pinctl);
  }

  // ---- The codec ----

  /** Every widget of the chain is read back from its dump; the groups are the same. */
  ghost predicate RereadFrom(c: Codec, c': Codec, parts: seq<Part>) {
    && |c'.nodes| == |c.nodes| == |parts| && c'.afgLen == c.afgLen
    && forall r: Ref :: r < |c.nodes| ==>
         if 1 <= r < c.afgLen
         then Dumpable(c.nodes[r], parts[r]) && HopsBack(c.nodes[r], parts[r].cap)
           && Reread(c.nodes[r], parts[r]) == Some(c'.nodes[r])
         else RouteLaws.SameHops(c.nodes[r], c'.nodes[r])
  }

  /** A codec parsed from its dump has the routes of the codec that was dumped. */
  lemma DumpKeepsRoutes(c: Codec, c': Codec, parts: seq<Part>, flags: Routes.Flags, end: Ref, list: seq<Routes.Path>)
    requires RereadFrom(c, c', parts)
    ensures Routes.ListsRoutesTo(c, flags, end, list) <==> Routes.ListsRoutesTo(c', flags, end, list)
    ensures Routes.ListsRoutesFrom(c, flags, end, list) <==> Routes.ListsRoutesFrom(c', flags, end, list)
  {
    forall r | 0 <= r < |c.nodes|
      ensures RouteLaws.SameHops(c.nodes[r], c'.nodes[r])
    {
      if 1 <= r < c.afgLen {
        HopsComeBackExactly(c.nodes[r], parts[r]);
      }
    }
    RouteLaws.SameLists(c, c', flags, end, list);
  }

  function Requests(widgets: seq<Node>): seq<(Byte, nat)>
    requires forall k :: 0 <= k < |widgets| ==> widgets[k].nid < 0x100
  {
    seq(|widgets|, k requires 0 <= k < |widgets| => (widgets[k].nid, widgets[k].wcaps))
  }

  /** Printed in ascending order, the widgets come back in that order, and none stops the parser. */
  lemma OrderComesBack(widgets: seq<Node>)
    requires NodeList.Ascending(widgets) && forall k :: 0 <= k < |widgets| ==> widgets[k].nid < 0x100
    ensures var (chain, ok) := NodeList.Parsed(NodeList.EMPTY, Requests(widgets));
      && ok && |chain.widgets| == |widgets|
      && forall k :: 0 <= k < |widgets| ==> chain.widgets[k] == NodeList.Fresh(widgets[k].nid, widgets[k].wcaps)
  {
    var requests := Requests(widgets);
    var n := NodeList.ParsedStops(NodeList.EMPTY, requests);
    assert requests[..|requests|] == requests;
    NodeList.RunSound(NodeList.EMPTY, requests);
    var chain := NodeList.Run(NodeList.EMPTY, requests).widgets;
    SameNids(widgets);
    NodeList.SameLength(chain, widgets);
    forall k | 0 <= k < |widgets|
      ensures chain[k] == NodeList.Fresh(widgets[k].nid, widgets[k].wcaps)
    {
      NodeList.SameNidsSameOrder(chain, widgets, k);
      NodeList.FirstRequestWins(NodeList.EMPTY, requests, k);
      FirstIsOnly(widgets, k);
    }
  }

  lemma SameNids(widgets: seq<Node>)
    requires forall k :: 0 <= k < |widgets| ==> widgets[k].nid < 0x100
    ensures NodeList.Requested(Requests(widgets)) == NodeList.NidSet(widgets)
  {
    var requests := Requests(widgets);
    assert forall k :: 0 <= k < |widgets| ==> requests[k].0 == widgets[k].nid;
    forall nid
      ensures nid in NodeList.Requested(requests) <==> nid in NodeList.NidSet(widgets)
    {
      if k :| 0 <= k < |widgets| && widgets[k].nid == nid {
        assert requests[k].0 == nid;
      }
    }
  }

  lemma {:induction false} FirstIsOnly(widgets: seq<Node>, k: nat)
    requires NodeList.Ascending(widgets) && k < |widgets|
    requires forall j :: 0 <= j < |widgets| ==> widgets[j].nid < 0x100
    ensures NodeList.FirstCaps(Requests(widgets), widgets[k].nid) == Some(widgets[k].wcaps)
    decreases k
  {
    if k > 0 {
      assert Requests(widgets)[1..] == Requests(widgets[1..]);
      FirstIsOnly(widgets[1..], k - 1);
    }
  }
}
