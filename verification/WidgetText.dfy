/** The description of one widget in a codec's proc file: the lines that are printed, and the parser
  * that goes through them in one of several modes.
  */
module WidgetText {
  import opened Options
  import opened HdaCodec
  import opened Text
  import opened Runs
  import Sequences
  import AmpText
  import ConnText
  import DigitalText
  import PinText

  /** The headings in the order in which the parser tries them. */
  const HEADINGS: seq<string> := [
    "Amp-In caps: ", "Amp-Out caps: ", "Amp-In vals: ", "Amp-Out vals: ", "Pin-ctls: ", "Pincap ",
    "Pin Default ", "Unsolicited: ", "Power: ", "Processing caps: ", "Digital:", "Digital category: ",
    "PCM:", "Connection: "]

  const AMP_IN: nat := 2
  const AMP_OUT: nat := 3
  const PIN_CTLS: nat := 4
  const PIN_CAP: nat := 5
  const PIN_DEFAULT: nat := 6
  const UNSOLICITED: nat := 7
  const PROCESSING: nat := 9
  const DIGITAL: nat := 10
  const PCM: nat := 12
  const CONNECTION: nat := 13

  const PCM_HEADINGS: seq<string> := ["rates [", "bits [", "formats ["]

  /** A heading behind which a number or two are read, or that of a line of the PCM block. */
  type Plain = k: nat | k < 17 && !(AMP_IN <= k <= UNSOLICITED) && k !in {DIGITAL, PCM, CONNECTION}

  /** One with a line of its own. */
  type Named = k: Plain | k < 14

  /** One pair for each connection. */
  type Pairs = s: seq<AmpPair> | |s| <= HDA_MAX_NUM_CONNS

  lemma HeadingsDiffer()
    ensures |HEADINGS| == 14 && AllDiffer(HEADINGS)
  {
    forall i, j | 0 <= i < j < 14
      ensures Differ(HEADINGS[i], HEADINGS[j])
    {
      var p := DiffAt(i, j);
      assert HEADINGS[i][p] != HEADINGS[j][p];
    }
  }

  /** Where two headings first differ. */
  function DiffAt(i: nat, j: nat): nat {
    if j <= 3 then (if i == 0 && j == 2 then 7 else if i == 1 && j == 3 then 8 else 4)
    else if 4 <= i <= 6 && j <= 6 then 3
    else if (4 <= i <= 6 || i == 8 || i == 9) && (j == 8 || j == 9 || j == 12) then 1
    else if i == 10 && j == 11 then 7
    else 0
  }

  // ---- Parsing ----

  /** Where the parser is: inside a widget, in its PCM block, before its connection list, or past it. */
  datatype Mode = Outside | InWidget | InPcm | InList

  type Entries = s: seq<nat> | |s| == HDA_MAX_NUM_CONNS witness seq(HDA_MAX_NUM_CONNS, _ => 0)

  /** What is parsed of a widget. `plain` has the text behind each plain heading, from which its own
    * numbers are read.
    */
  datatype Fields = Fields(
    ampIn: AmpVals,
    origIn: AmpVals,
    ampOut: AmpVals,
    origOut: AmpVals,
    dig: DigitalText.Bits,
    pincap: nat,
    pinctl: nat,
    pinDefault: nat,
    numNodes: nat,
    node: Entries,
    currConn: nat,
    plain: map<Plain, string>)

  datatype State = State(mode: Mode, fields: Fields)

  /** A line inside the widget; `None` where the source would leave its buffers. */
  function ItemRead(f: Fields, line: string): Option<State> {
    match FirstPrefix(HEADINGS, ConnText.SkipTwo(line), 0)
    case None => Some(State(InWidget, f))
    case Some((k, p)) => FieldRead(f, k, p)
  }

  /** A pin control is checked against the capabilities, if those were there before. */
  function PinCtl(f: Fields, ctl: nat): nat {
    if f.pincap != 0 then PinText.Verified(f.pincap, ctl) else ctl
  }

  function FieldRead(f: Fields, k: nat, p: string): Option<State>
    requires k < 14
  {
    if k == AMP_IN then
      match AmpText.Parsed(p, f.ampIn, f.origIn)
      case None => None
      case Some((vals, orig)) => Some(State(InWidget, f.(ampIn := vals, origIn := orig)))
    else if k == AMP_OUT then
      match AmpText.Parsed(p, f.ampOut, f.origOut)
      case None => None
      case Some((vals, orig)) => Some(State(InWidget, f.(ampOut := vals, origOut := orig)))
    else if k == DIGITAL then
      Some(State(InWidget, f.(dig := DigitalText.Repeat(DigitalText.ReadName, p, f.dig).0)))
    else if k == CONNECTION then
      var n := ConnText.Announced(p);
      Some(State(if n != 0 then InList else InWidget, f.(numNodes := n)))
    else if k == PCM then Some(State(if p != [] && p[0] == ' ' then InWidget else InPcm, f))
    else if k == UNSOLICITED then Some(State(InWidget, f))
    else if k == PIN_CTLS then Some(State(InWidget, f.(pinctl := PinCtl(f, ToUnsigned(Strtoul(p).0)))))
    else if k == PIN_CAP then Some(State(InWidget, f.(pincap := PinText.PinCapOf(p))))
    else if k == PIN_DEFAULT then Some(State(InWidget, f.(pinDefault := ToUnsigned(Strtoul(p).0))))
    else Some(State(InWidget, f.(plain := f.plain[k := p])))
  }

  /** A line in the PCM block, or the first one after it. */
  function PcmRead(f: Fields, line: string): Option<State> {
    match FirstPrefix(PCM_HEADINGS, SkipSpaces(line), 0)
    case None => ItemRead(f, line)
    case Some((k, p)) => Some(State(InPcm, f.(plain := f.plain[14 + k := p])))
  }

  function ListRead(f: Fields, line: string): Option<State> {
    if f.numNodes > HDA_MAX_NUM_CONNS then None
    else
      var (vs, curr, _) := ConnText.Parsed(line, f.numNodes, f.currConn);
      Some(State(Outside, f.(node := vs + f.node[f.numNodes..], currConn := curr)))
  }

  /** One line, as far as the line buffer has room. Outside the widget its fields stay as they are. */
  function LineRead(s: State, line: string): Option<State> {
    if s.mode == Outside || LeavesWidget(line) || line == [] then Some(s.(mode := Outside))
    else
      match s.mode
      case InWidget => ItemRead(s.fields, line)
      case InPcm => PcmRead(s.fields, line)
      case InList => ListRead(s.fields, line)
  }

  /** A whole line, in as many readings as it takes. */
  function WholeRead(s: Option<State>, line: string): Option<State>
    decreases |line|
  {
    if s.None? then None
    else if |line| <= LINE_MAX then LineRead(s.value, line)
    else WholeRead(LineRead(s.value, line[..LINE_MAX]), line[LINE_MAX..])
  }

  function LinesRead(s: Option<State>, lines: seq<string>): Option<State> {
    Folded(WholeRead, s, lines)
  }

  /** The parser with the record of the current widget. */
  class Parser {
    var parseMode: Mode
    var ampIn: AmpVals
    var origIn: AmpVals
    var ampOut: AmpVals
    var origOut: AmpVals
    var dig: DigitalText.Bits
    var pincap: nat
    var pinctl: nat
    var pinDefault: nat
    var numNodes: nat
    var currConn: nat
    var plain: map<Plain, string>
    const node: array<nat>

    ghost predicate Valid() {
      node.Length == HDA_MAX_NUM_CONNS
    }

    ghost function View(): State
      requires Valid()
      reads this, node
    {
      State(parseMode, Fields(ampIn, origIn, ampOut, origOut, dig, pincap, pinctl, pinDefault,
                              numNodes, node[..], currConn, plain))
    }

    /** A new record, inside its widget. */
    constructor ()
      ensures Valid() && fresh(node) && View() == State(InWidget, NewFields())
    {
      parseMode := InWidget;
      ampIn, origIn, ampOut, origOut := NoAmps(), NoAmps(), NoAmps(), NoAmps();
      dig, pincap, pinctl, pinDefault := 0, 0, 0, 0;
      numNodes, currConn, plain := 0, 0, map[];
      node := new nat[HDA_MAX_NUM_CONNS](_ => 0);
      new;
      assert node[..] == seq(HDA_MAX_NUM_CONNS, _ => 0);
    }

    /** `ok` is false where the source would leave its buffers. */
    method ParseLine(buffer: string) returns (ok: bool)
      requires Valid()
      modifies this, node
      ensures ok <==> LineRead(old(View()), buffer).Some?
      ensures ok ==> Some(View()) == LineRead(old(View()), buffer)
    {
      if parseMode == Outside || buffer == [] || buffer[0] != ' ' {
        parseMode := Outside;
        return true;
      }
      match parseMode
      case InWidget => ok := ParseNodeItems(buffer);
      case InPcm => ok := ParseNodePcm(buffer);
      case InList => ok := ParseNodeConnections(buffer);
    }

    method ParseNodeItems(buf: string) returns (ok: bool)
      requires Valid()
      modifies this
      ensures ok <==> ItemRead(old(View()).fields, buf).Some?
      ensures ok ==> Some(View()) == ItemRead(old(View()).fields, buf)
    {
      parseMode := InWidget;
      var field := FirstPrefix(HEADINGS, ConnText.SkipTwo(buf), 0);
      if field.None? {
        return true;
      }
      var (k, p) := field.value;
      ok := ParseField(k, p);
    }

    method ParseField(k: nat, p: string) returns (ok: bool)
      requires Valid() && k < 14 && parseMode == InWidget
      modifies this
      ensures ok <==> FieldRead(old(View()).fields, k, p).Some?
      ensures ok ==> Some(View()) == FieldRead(old(View()).fields, k, p)
    {
      ok := true;
      if k == AMP_IN {
        ok, ampIn, origIn := AmpText.ParseAmpVals(p, ampIn, origIn);
      } else if k == AMP_OUT {
        ok, ampOut, origOut := AmpText.ParseAmpVals(p, ampOut, origOut);
      } else if k == DIGITAL {
        dig := DigitalText.ParseNodeDigital(p, dig);
      } else if k == CONNECTION {
        numNodes := ToUnsigned(Strtoul(p).0);
        if numNodes >= 128 {
          numNodes := 0;
        }
        if numNodes != 0 {
          parseMode := InList;
        }
      } else if k == PCM {
        if p == [] || p[0] != ' ' {
          parseMode := InPcm;
        }
      } else if k == PIN_CTLS {
        pinctl := ToUnsigned(Strtoul(p).0);
        if pincap != 0 {
          pinctl := PinText.Verified(pincap, pinctl);
        }
      } else if k == PIN_CAP {
        pincap := PinText.PinCapOf(p);
      } else if k == PIN_DEFAULT {
        pinDefault := ToUnsigned(Strtoul(p).0);
      } else if k != UNSOLICITED {
        plain := plain[k := p];
      }
    }

    method ParseNodePcm(buf: string) returns (ok: bool)
      requires Valid()
      modifies this
      ensures ok <==> PcmRead(old(View()).fields, buf).Some?
      ensures ok ==> Some(View()) == PcmRead(old(View()).fields, buf)
    {
      var field := FirstPrefix(PCM_HEADINGS, SkipSpaces(buf), 0);
      if field.None? {
        ok := ParseNodeItems(buf);
        return;
      }
      parseMode := InPcm;
      plain := plain[14 + field.value.0 := field.value.1];
      return true;
    }

    method ParseNodeConnections(buf: string) returns (ok: bool)
      requires Valid()
      modifies this, node
      ensures ok <==> ListRead(old(View()).fields, buf).Some?
      ensures ok ==> Some(View()) == ListRead(old(View()).fields, buf)
    {
      ok, currConn := ConnText.ParseNodeConnections(buf, numNodes, node, currConn);
      parseMode := Outside;
      assert ok ==> node[..] == node[..numNodes] + node[numNodes..];
    }
  }

  function NoAmps(): AmpVals {
    seq(HDA_MAX_NUM_CONNS, _ => AmpPair(0, 0))
  }

  function NewFields(): Fields {
    Fields(NoAmps(), NoAmps(), NoAmps(), NoAmps(), 0, 0, 0, 0, 0, seq(HDA_MAX_NUM_CONNS, _ => 0), 0, map[])
  }

  // ---- Printing ----

  /** Rates, bits and formats. */
  type PcmTexts = s: seq<string> | |s| == 3 witness ["", "", ""]

  /** What is printed of a widget before its connection list. */
  datatype Piece =
    | Field(k: Named, text: string)
    | InAmps(pairs: Pairs, stereo: bool)
    | OutAmps(pairs: Pairs, stereo: bool)
    | Flags(d: DigitalText.Bits)
    | PcmCaps(texts: PcmTexts)
    | NoPcmCaps
    | Unsolicited(text: string)
    | PinCaps(cap: PinText.Word, text: string)
    | PinConfig(cfg: PinText.Word, text: string)
    | PinControl(ctl: PinText.Word, text: string)
    | Unread(line: string)

  function Lines(p: Piece): seq<string> {
    match p
    case Field(k, text) => ["  " + (HEADINGS[k] + (text + "\n"))]
    case InAmps(pairs, stereo) => [AmpText.AMP_IN + AmpText.Items(pairs, 0, stereo, "\n")]
    case OutAmps(pairs, stereo) => [AmpText.AMP_OUT + AmpText.Items(pairs, 0, stereo, "\n")]
    case Flags(d) => [DigitalText.Printed(d, 8) + "\n"]
    case PcmCaps(texts) => ["  PCM:\n"] + PcmLines(texts, 0)
    case NoPcmCaps => ["  PCM:\n", "N/A\n"]
    case Unsolicited(text) => ["  " + (HEADINGS[UNSOLICITED] + (text + "\n"))]
    case PinCaps(cap, text) => ["  " + (HEADINGS[PIN_CAP] + (Number(Hex8(cap)) + Rest(text)))]
    case PinConfig(cfg, text) => ["  " + (HEADINGS[PIN_DEFAULT] + (Number(Hex8(cfg)) + Rest(text)))]
    case PinControl(ctl, text) => ["  " + (HEADINGS[PIN_CTLS] + (Number(Hex2(ctl)) + Rest(text)))]
    case Unread(line) => [line]
  }

  function Number(digits: string): string {
    "0x" + digits
  }

  function Rest(text: string): string {
    ":" + (text + "\n")
  }

  function PcmLines(texts: PcmTexts, j: nat): seq<string>
    requires j <= 3
    decreases 3 - j
  {
    if j == 3 then [] else [PcmLine(j, texts[j])] + PcmLines(texts, j + 1)
  }

  function PcmLine(j: nat, text: string): string
    requires j < 3
  {
    "    " + (PCM_HEADINGS[j] + (text + "\n"))
  }

  /** Printed lines fit the line buffer, but for amplifiers; unread ones have none of the headings. */
  ghost predicate Printable(p: Piece) {
    match p
    case Field(k, text) => |HEADINGS[k]| + |text| + 3 <= LINE_MAX
    case PcmCaps(texts) => forall j :: 0 <= j < 3 ==> |texts[j]| <= 200
    case Unsolicited(text) => |text| <= 200
    case PinCaps(_, text) => |text| <= 200
    case PinConfig(_, text) => |text| <= 200
    case PinControl(_, text) => |text| <= 200
    case Unread(line) =>
      && line != [] && line[0] == ' ' && |line| <= LINE_MAX
      && FirstPrefix(HEADINGS, ConnText.SkipTwo(line), 0).None?
      && FirstPrefix(PCM_HEADINGS, SkipSpaces(line), 0).None?
    case _ => true
  }

  // ---- What comes back ----

  function Restored(pairs: Pairs, n: nat, vals: AmpVals): AmpVals {
    AmpText.Overwritten(pairs, if n <= |pairs| then n else |pairs|, vals)
  }

  function PcmStored(f: Fields, texts: PcmTexts, j: nat): Fields
    requires j <= 3
    decreases 3 - j
  {
    if j == 3 then f else PcmStored(f.(plain := f.plain[14 + j := texts[j] + "\n"]), texts, j + 1)
  }

  /** The parser after one piece: its field restored, and where it goes on. */
  function After(s: State, p: Piece): Option<State> {
    var f := s.fields;
    if s.mode == Outside then Some(s)
    else
      match p
      case Field(k, text) => Some(State(InWidget, f.(plain := f.plain[k := text + "\n"])))
      case InAmps(pairs, stereo) =>
        if pairs == [] then Some(State(InWidget, f))
        else if !stereo then Some(State(InWidget, f.(origIn := f.ampIn)))
        else
          var vals := Restored(pairs, AmpText.WHOLE_PAIRS, f.ampIn);
          Some(State(if |pairs| == AmpText.WHOLE_PAIRS then Outside else InWidget, f.(ampIn := vals, origIn := vals)))
      case OutAmps(pairs, stereo) =>
        if pairs == [] then Some(State(InWidget, f))
        else if !stereo then Some(State(InWidget, f.(origOut := f.ampOut)))
        else if |pairs| >= AmpText.WHOLE_PAIRS then None
        else
          var vals := Restored(pairs, |pairs|, f.ampOut);
          Some(State(InWidget, f.(ampOut := vals, origOut := vals)))
      case Flags(d) => Some(State(InWidget, f.(dig := f.dig | d)))
      case PcmCaps(texts) => Some(State(InPcm, PcmStored(f, texts, 0)))
      case NoPcmCaps => Some(State(Outside, f))
      case Unsolicited(_) => Some(State(InWidget, f))
      case PinCaps(cap, _) => Some(State(InWidget, f.(pincap := cap)))
      case PinConfig(cfg, _) => Some(State(InWidget, f.(pinDefault := cfg)))
      case PinControl(ctl, _) => Some(State(InWidget, f.(pinctl := PinCtl(f, ctl))))
      case Unread(_) => Some(State(InWidget, f))
  }

  // ---- One line ----

  lemma HeadingStarts(k: nat)
    requires k < 14
    ensures HEADINGS[k] != [] && 'A' <= HEADINGS[k][0] <= 'Z'
  {
  }

  lemma PcmHeadings()
    ensures |PCM_HEADINGS| == 3 && AllDiffer(PCM_HEADINGS)
    ensures PCM_HEADINGS[0][0] == 'r' && PCM_HEADINGS[1][0] == 'b' && PCM_HEADINGS[2][0] == 'f'
  {
    forall i, j | 0 <= i < j < 3
      ensures Differ(PCM_HEADINGS[i], PCM_HEADINGS[j])
    {
      assert PCM_HEADINGS[i][0] != PCM_HEADINGS[j][0];
    }
  }

  lemma SkipIndent(s: string)
    requires s != [] && !IsSpace(s[0])
    ensures SkipSpaces("  " + s) == s && SkipSpaces("    " + s) == s
  {
    assert "  " + s == " " + (" " + s) && "    " + s == " " + (" " + ("  " + s));
    SkipOne(s);
    SkipOne(" " + s);
    SkipOne("  " + s);
    SkipOne(" " + ("  " + s));
  }

  lemma SkipOne(s: string)
    ensures SkipSpaces(" " + s) == SkipSpaces(s)
  {
    assert (" " + s)[1..] == s;
  }

  /** In the widget and in its PCM block a line with a heading goes to the field of that. */
  lemma HeadingLine(s: State, k: nat, p: string)
    requires (s.mode == InWidget || s.mode == InPcm) && k < 14
    ensures LineRead(s, "  " + (HEADINGS[k] + p)) == FieldRead(s.fields, k, p)
  {
    var head := HEADINGS[k] + p;
    var line := "  " + head;
    HeadingStarts(k);
    HeadingsDiffer();
    ConnText.SkipIndent2(head);
    PrefixFound(HEADINGS, k, p, 0);
    SkipIndent(head);
    PcmHeadings();
    NoPrefix(PCM_HEADINGS, head, 0);
    assert ItemRead(s.fields, line) == FieldRead(s.fields, k, p);
    assert line[0] == ' ';
  }

  lemma PcmTextLine(f: Fields, j: nat, text: string)
    requires j < 3 && |text| <= 200
    ensures WholeRead(Some(State(InPcm, f)), PcmLine(j, text))
         == Some(State(InPcm, f.(plain := f.plain[14 + j := text + "\n"])))
  {
    var head := PCM_HEADINGS[j] + (text + "\n");
    PcmHeadings();
    assert |PcmLine(j, text)| <= LINE_MAX;
    SkipIndent(head);
    PrefixFound(PCM_HEADINGS, j, text + "\n", 0);
    assert ("    " + head)[0] == ' ';
  }

  /** What is left of a long line of amplifiers has no heading. */
  lemma RestUnread(f: Fields, rest: string)
    requires rest != [] && rest[0] == ' ' && |rest| > 1 && rest[1] == '['
    ensures LineRead(State(InWidget, f), rest) == Some(State(InWidget, f))
  {
    var head := rest[1..];
    forall k | 0 <= k < |HEADINGS|
      ensures HEADINGS[k] != [] && head[0] != HEADINGS[k][0]
    {
      HeadingStarts(k);
    }
    NoPrefix(HEADINGS, head, 0);
  }

  lemma {:induction false} OutsideLine(s: State, line: string)
    requires s.mode == Outside
    ensures WholeRead(Some(s), line) == Some(s)
    decreases |line|
  {
    if |line| > LINE_MAX {
      OutsideLine(s, line[LINE_MAX..]);
    }
  }

  /** Outside, nothing is read. */
  lemma {:induction false} OutsideStays(s: State, lines: seq<string>)
    requires s.mode == Outside
    ensures LinesRead(Some(s), lines) == Some(s)
    decreases |lines|
  {
    if lines != [] {
      OutsideLine(s, lines[0]);
      OutsideStays(s, lines[1..]);
    }
  }

  lemma {:induction false} NoneStays(lines: seq<string>)
    ensures LinesRead(None, lines) == None
    decreases |lines|
  {
    if lines != [] {
      NoneStays(lines[1..]);
    }
  }

  lemma OneLine(s: State, line: string)
    ensures LinesRead(Some(s), [line]) == WholeRead(Some(s), line)
  {
    FoldedOne(WholeRead, Some(s), line);
  }

  /** A line is read from its heading on, and what did not fit after that. */
  lemma HeadingFirst(s: State, k: nat, line: string, p: string)
    requires Reading(s) && k < 14 && FirstRead(line) == "  " + (HEADINGS[k] + p)
    ensures WholeRead(Some(s), line)
         == if |line| <= LINE_MAX then FieldRead(s.fields, k, p)
            else WholeRead(FieldRead(s.fields, k, p), line[LINE_MAX..])
  {
    HeadingLine(s, k, p);
  }

  lemma AmpHeadings()
    ensures AmpText.AMP_IN == "  " + HEADINGS[AMP_IN] && AmpText.AMP_OUT == "  " + HEADINGS[AMP_OUT]
  {
  }

  lemma Behind(a: string, b: string, read: string)
    requires a + b <= read
    ensures read == a + (b + read[|a + b|..])
  {
  }

  // ---- One piece ----

  /** Inside the widget, or in its PCM block. */
  predicate Reading(s: State) {
    s.mode == InWidget || s.mode == InPcm
  }

  lemma FieldPiece(s: State, k: Named, text: string)
    requires Reading(s) && Printable(Field(k, text))
    ensures LinesRead(Some(s), Lines(Field(k, text))) == After(s, Field(k, text))
  {
    var line := "  " + (HEADINGS[k] + (text + "\n"));
    OneLine(s, line);
    HeadingLine(s, k, text + "\n");
  }

  /** What is left of a line of 20 or more pairs takes the parser out of the widget, or is unread. */
  lemma RestOfLine(f: Fields, pairs: Pairs)
    requires |pairs| >= AmpText.WHOLE_PAIRS
    ensures var rest := AmpText.Items(pairs, AmpText.WHOLE_PAIRS, true, "\n");
      WholeRead(Some(State(InWidget, f)), rest)
        == Some(State(if |pairs| == AmpText.WHOLE_PAIRS then Outside else InWidget, f))
  {
    var m := AmpText.WHOLE_PAIRS;
    AmpText.ItemsLength(pairs, m, true, "\n");
    AmpText.RestStarts(pairs, m);
    if |pairs| > m {
      RestStart(pairs, m);
      RestUnread(f, AmpText.Items(pairs, m, true, "\n"));
    }
  }

  lemma RestStart(pairs: seq<AmpPair>, m: nat)
    requires m < |pairs|
    ensures var rest := AmpText.Items(pairs, m, true, "\n"); |rest| > 1 && rest[0] == ' ' && rest[1] == '['
  {
    AmpText.BodyStart(pairs[m], true);
    assert AmpText.Items(pairs, m, true, "\n")
        == AmpText.Item(pairs[m], true) + AmpText.Items(pairs, m + 1, true, "\n");
  }

  lemma InAmpsPiece(s: State, pairs: Pairs)
    requires Reading(s) && pairs != []
    ensures LinesRead(Some(s), Lines(InAmps(pairs, true))) == After(s, InAmps(pairs, true))
  {
    var f, line := s.fields, AmpText.AMP_IN + AmpText.Items(pairs, 0, true, "\n");
    var p := FirstRead(line)[|AmpText.AMP_IN|..];
    OneLine(s, line);
    AmpText.InputLineExactly(pairs, f.ampIn, f.origIn);
    AmpHeadings();
    Behind("  ", HEADINGS[AMP_IN], FirstRead(line));
    HeadingFirst(s, AMP_IN, line, p);
    AmpText.ItemsLength(pairs, 0, true, "\n");
    if |pairs| >= AmpText.WHOLE_PAIRS {
      var vals := Restored(pairs, AmpText.WHOLE_PAIRS, f.ampIn);
      RestOfLine(f.(ampIn := vals, origIn := vals), pairs);
    }
  }

  lemma OutAmpsPiece(s: State, pairs: Pairs)
    requires Reading(s) && pairs != []
    ensures LinesRead(Some(s), Lines(OutAmps(pairs, true))) == After(s, OutAmps(pairs, true))
  {
    var f, line := s.fields, AmpText.AMP_OUT + AmpText.Items(pairs, 0, true, "\n");
    var p := FirstRead(line)[|AmpText.AMP_OUT|..];
    OneLine(s, line);
    AmpText.OutputLineExactly(pairs, f.ampOut, f.origOut);
    AmpHeadings();
    Behind("  ", HEADINGS[AMP_OUT], FirstRead(line));
    HeadingFirst(s, AMP_OUT, line, p);
    AmpText.ItemsLength(pairs, 0, true, "\n");
  }

  /** No values at all, or one to a bracket: the line is read, but nothing restored. */
  lemma BareAmpsPiece(s: State, pairs: Pairs, stereo: bool)
    requires Reading(s) && (pairs == [] || !stereo)
    ensures LinesRead(Some(s), Lines(InAmps(pairs, stereo))) == After(s, InAmps(pairs, stereo))
    ensures LinesRead(Some(s), Lines(OutAmps(pairs, stereo))) == After(s, OutAmps(pairs, stereo))
  {
    var f, text := s.fields, AmpText.Items(pairs, 0, stereo, "\n");
    AmpText.ItemsLength(pairs, 0, stereo, "\n");
    AmpHeadings();
    BareLine(s, AMP_IN, AmpText.AMP_IN, text);
    BareLine(s, AMP_OUT, AmpText.AMP_OUT, text);
    if pairs == [] {
      AmpText.EmptyLineRoundTrip(stereo, f.ampIn, f.origIn);
      AmpText.EmptyLineRoundTrip(stereo, f.ampOut, f.origOut);
    } else {
      AmpText.MonoIsLost(pairs, f.ampIn, f.origIn);
      AmpText.MonoIsLost(pairs, f.ampOut, f.origOut);
    }
  }

  /** A short line behind a heading. */
  lemma BareLine(s: State, k: nat, heading: string, text: string)
    requires Reading(s) && k < 14 && heading == "  " + HEADINGS[k] && |heading| + |text| <= LINE_MAX
    ensures LinesRead(Some(s), [heading + text]) == WholeRead(Some(s), heading + text) == FieldRead(s.fields, k, text)
  {
    var line := heading + text;
    OneLine(s, line);
    Sequences.Associative("  ", HEADINGS[k], text);
    HeadingFirst(s, k, line, text);
  }

  lemma FlagsPiece(s: State, d: DigitalText.Bits)
    requires Reading(s)
    ensures LinesRead(Some(s), Lines(Flags(d))) == After(s, Flags(d))
  {
    var names := DigitalText.FlagsBehind(d, s.fields.dig);
    DigitalHeading();
    FlagsField(s.fields, d, names);
    FlagsLine(s, d, DigitalText.HEADING, names);
  }

  lemma FlagsField(f: Fields, d: DigitalText.Bits, names: string)
    requires DigitalText.Repeat(DigitalText.ReadName, names, f.dig).0 == f.dig | d
    ensures FieldRead(f, DIGITAL, names) == Some(State(InWidget, f.(dig := f.dig | d)))
  {
  }

  lemma FlagsLine(s: State, d: DigitalText.Bits, heading: string, names: string)
    requires Reading(s) && heading == "  " + HEADINGS[DIGITAL] && |heading| + |names| <= LINE_MAX
    requires FieldRead(s.fields, DIGITAL, names) == Some(State(InWidget, s.fields.(dig := s.fields.dig | d)))
    ensures LinesRead(Some(s), [heading + names]) == After(s, Flags(d))
  {
    BareLine(s, DIGITAL, heading, names);
  }

  lemma DigitalHeading()
    ensures DigitalText.HEADING == "  " + HEADINGS[DIGITAL]
  {
  }

  lemma PcmStarts(s: State)
    requires Reading(s)
    ensures WholeRead(Some(s), "  PCM:\n") == Some(State(InPcm, s.fields))
  {
    assert "  PCM:\n" == "  " + (HEADINGS[PCM] + "\n");
    HeadingFirst(s, PCM, "  PCM:\n", "\n");
  }

  lemma FirstLine(s: Option<State>, line: string, rest: seq<string>)
    ensures LinesRead(s, [line] + rest) == LinesRead(WholeRead(s, line), rest)
  {
    FoldedFirst(WholeRead, s, line, rest);
  }

  lemma {:induction false} PcmBlock(f: Fields, texts: PcmTexts, j: nat)
    requires j <= 3 && Printable(PcmCaps(texts))
    ensures LinesRead(Some(State(InPcm, f)), PcmLines(texts, j)) == Some(State(InPcm, PcmStored(f, texts, j)))
    decreases 3 - j
  {
    if j < 3 {
      var f' := f.(plain := f.plain[14 + j := texts[j] + "\n"]);
      FirstLine(Some(State(InPcm, f)), PcmLine(j, texts[j]), PcmLines(texts, j + 1));
      PcmTextLine(f, j, texts[j]);
      PcmBlock(f', texts, j + 1);
    }
  }

  lemma PcmPiece(s: State, texts: PcmTexts)
    requires Reading(s) && Printable(PcmCaps(texts))
    ensures LinesRead(Some(s), Lines(PcmCaps(texts))) == After(s, PcmCaps(texts))
  {
    PcmStarts(s);
    FirstLine(Some(s), "  PCM:\n", PcmLines(texts, 0));
    PcmBlock(s.fields, texts, 0);
  }

  lemma NoPcmPiece(s: State)
    requires Reading(s)
    ensures LinesRead(Some(s), Lines(NoPcmCaps)) == After(s, NoPcmCaps)
  {
    PcmStarts(s);
    assert Lines(NoPcmCaps) == ["  PCM:\n"] + ["N/A\n"];
    FirstLine(Some(s), "  PCM:\n", ["N/A\n"]);
    OneLine(State(InPcm, s.fields), "N/A\n");
  }

  /** The tag of unsolicited responses is matched, but nothing is taken from it. */
  lemma UnsolicitedPiece(s: State, text: string)
    requires Reading(s) && Printable(Unsolicited(text))
    ensures LinesRead(Some(s), Lines(Unsolicited(text))) == After(s, Unsolicited(text))
  {
    OneLine(s, "  " + (HEADINGS[UNSOLICITED] + (text + "\n")));
    HeadingLine(s, UNSOLICITED, text + "\n");
  }

  lemma PinCapsPiece(s: State, cap: PinText.Word, text: string)
    requires Reading(s) && Printable(PinCaps(cap, text))
    ensures LinesRead(Some(s), Lines(PinCaps(cap, text))) == After(s, PinCaps(cap, text))
  {
    var p := Number(Hex8(cap)) + Rest(text);
    PinText.Hex8Shape(cap);
    NumberText(Hex8(cap), text);
    PinText.PinCapRoundTrip(cap, text + "\n");
    NumberLine(s, PIN_CAP, p);
    PinCapField(s.fields, p, cap);
  }

  lemma PinCapField(f: Fields, p: string, cap: nat)
    requires PinText.PinCapOf(p) == cap
    ensures FieldRead(f, PIN_CAP, p) == Some(State(InWidget, f.(pincap := cap)))
  {
  }

  lemma PinConfigPiece(s: State, cfg: PinText.Word, text: string)
    requires Reading(s) && Printable(PinConfig(cfg, text))
    ensures LinesRead(Some(s), Lines(PinConfig(cfg, text))) == After(s, PinConfig(cfg, text))
  {
    var p := Number(Hex8(cfg)) + Rest(text);
    PinText.Hex8Shape(cfg);
    NumberText(Hex8(cfg), text);
    StrtoulHex8(cfg, Rest(text));
    NumberLine(s, PIN_DEFAULT, p);
    NumberFields(s.fields, p, cfg);
  }

  lemma PinControlPiece(s: State, ctl: PinText.Word, text: string)
    requires Reading(s) && Printable(PinControl(ctl, text))
    ensures LinesRead(Some(s), Lines(PinControl(ctl, text))) == After(s, PinControl(ctl, text))
  {
    var p := Number(Hex2(ctl)) + Rest(text);
    PinText.Hex2Fits(ctl);
    NumberText(Hex2(ctl), text);
    StrtoulHex(ctl, Rest(text));
    NumberLine(s, PIN_CTLS, p);
    NumberFields(s.fields, p, ctl);
  }

  lemma NumberText(digits: string, text: string)
    requires |digits| <= 8 && |text| <= 200
    ensures |Number(digits) + Rest(text)| <= 230 && !StartsWithDigit(Rest(text), Hex)
  {
  }

  lemma NumberFields(f: Fields, p: string, n: PinText.Word)
    requires Strtoul(p).0 == n
    ensures FieldRead(f, PIN_DEFAULT, p) == Some(State(InWidget, f.(pinDefault := n)))
    ensures FieldRead(f, PIN_CTLS, p) == Some(State(InWidget, f.(pinctl := PinCtl(f, n))))
  {
  }

  lemma NumberLine(s: State, k: nat, p: string)
    requires Reading(s) && k < 14 && |p| <= 230
    ensures LinesRead(Some(s), ["  " + (HEADINGS[k] + p)]) == FieldRead(s.fields, k, p)
  {
    HeadingsShort(k);
    Sequences.Associative("  ", HEADINGS[k], p);
    BareLine(s, k, "  " + HEADINGS[k], p);
  }

  lemma HeadingsShort(k: nat)
    requires k < 14
    ensures |HEADINGS[k]| <= 18
  {
  }

  /** Every piece is read as it was meant to be. */
  lemma PieceRead(s: State, p: Piece)
    requires s.mode != InList && Printable(p)
    ensures LinesRead(Some(s), Lines(p)) == After(s, p)
    ensures After(s, p).Some? ==> After(s, p).value.mode != InList
  {
    if s.mode == Outside {
      OutsideStays(s, Lines(p));
    } else {
      match p
      case Field(k, text) => FieldPiece(s, k, text);
      case InAmps(pairs, stereo) =>
        if stereo && pairs != [] {
          InAmpsPiece(s, pairs);
        } else {
          BareAmpsPiece(s, pairs, stereo);
        }
      case OutAmps(pairs, stereo) =>
        if stereo && pairs != [] {
          OutAmpsPiece(s, pairs);
        } else {
          BareAmpsPiece(s, pairs, stereo);
        }
      case Flags(d) => FlagsPiece(s, d);
      case PcmCaps(texts) => PcmPiece(s, texts);
      case NoPcmCaps => NoPcmPiece(s);
      case Unsolicited(text) => UnsolicitedPiece(s, text);
      case PinCaps(cap, text) => PinCapsPiece(s, cap, text);
      case PinConfig(cfg, text) => PinConfigPiece(s, cfg, text);
      case PinControl(ctl, text) => PinControlPiece(s, ctl, text);
      case Unread(line) => OneLine(s, line);
    }
  }

  // ---- The whole widget ----

  function PieceLines(pieces: seq<Piece>): seq<string> {
    if pieces == [] then [] else Lines(pieces[0]) + PieceLines(pieces[1..])
  }

  function AfterAny(s: Option<State>, p: Piece): Option<State> {
    match s case None => None case Some(t) => After(t, p)
  }

  function AfterAll(s: Option<State>, pieces: seq<Piece>): Option<State> {
    Folded(AfterAny, s, pieces)
  }

  lemma {:induction false} PiecesRead(s: Option<State>, pieces: seq<Piece>)
    requires s.Some? ==> s.value.mode != InList
    requires forall k :: 0 <= k < |pieces| ==> Printable(pieces[k])
    ensures LinesRead(s, PieceLines(pieces)) == AfterAll(s, pieces)
    ensures AfterAll(s, pieces).Some? ==> AfterAll(s, pieces).value.mode != InList
    decreases |pieces|
  {
    if pieces != [] {
      var rest := pieces[1..];
      FoldedAppend(WholeRead, s, Lines(pieces[0]), PieceLines(rest));
      if s.Some? {
        PieceRead(s.value, pieces[0]);
      } else {
        NoneStays(Lines(pieces[0]));
      }
      PiecesRead(AfterAny(s, pieces[0]), rest);
    }
  }

  datatype ConnList = ConnList(widType: nat, conns: Conns, sel: nat)

  datatype Widget = Widget(pieces: seq<Piece>, list: Option<ConnList>, proc: Option<string>)

  function ListLines(l: ConnList): seq<string> {
    [ConnText.Header(|l.conns|)]
      + if l.conns == [] then [] else [ConnText.ListLine(l.conns, ConnText.Starred(l.widType, |l.conns|, l.sel))]
  }

  function ListAfter(s: State, l: ConnList): State {
    var f, n := s.fields, |l.conns|;
    var starred := ConnText.Starred(l.widType, n, l.sel) == l.sel && l.sel < n;
    if s.mode == Outside then s
    else if n == 0 then State(InWidget, f.(numNodes := 0))
    else
      var curr := if starred then l.sel else f.currConn;
      State(Outside, f.(numNodes := n, node := l.conns + f.node[n..], currConn := curr))
  }

  /** The connection list comes back, and takes the parser out of the widget if it is not empty. */
  lemma ListPiece(s: State, l: ConnList)
    requires s.mode != InList && forall k :: 0 <= k < |l.conns| ==> l.conns[k] < 0x100
    ensures LinesRead(Some(s), ListLines(l)) == Some(ListAfter(s, l))
  {
    if s.mode == Outside {
      OutsideStays(s, ListLines(l));
      return;
    }
    var n := |l.conns|;
    var header := ConnText.Header(n);
    HeaderLine(s, n);
    if n == 0 {
      assert ListLines(l) == [header];
      OneLine(s, header);
    } else {
      var line := ConnText.ListLine(l.conns, ConnText.Starred(l.widType, n, l.sel));
      ConnText.ListLineFits(l.conns, ConnText.Starred(l.widType, n, l.sel));
      ConnText.ConnListRoundTrip(l.widType, l.conns, l.sel, s.fields.currConn);
      FirstLine(Some(s), header, [line]);
      OneLine(State(InList, s.fields.(numNodes := n)), line);
      ListLineStarts(l.conns, ConnText.Starred(l.widType, n, l.sel));
    }
  }

  lemma ListLineStarts(conns: seq<nat>, curr: int)
    ensures ConnText.ListLine(conns, curr) != [] && ConnText.ListLine(conns, curr)[0] == ' '
  {
  }

  lemma HeaderLine(s: State, n: nat)
    requires Reading(s) && n <= HDA_MAX_NUM_CONNS
    ensures WholeRead(Some(s), ConnText.Header(n))
         == Some(State(if n != 0 then InList else InWidget, s.fields.(numNodes := n)))
  {
    var text := Decimal(n) + "\n";
    ShortDecimal(n);
    StrtoulDecimal(n, "\n");
    AnnouncedSelf(text, n);
    ConnHeading();
    Sequences.Associative("  ", ConnText.CONNECTION, text);
    BareLine(s, CONNECTION, "  " + ConnText.CONNECTION, text);
  }

  lemma ConnHeading()
    ensures ConnText.CONNECTION == HEADINGS[CONNECTION] && |ConnText.CONNECTION| == 12
  {
  }

  lemma AnnouncedSelf(text: string, n: nat)
    requires Strtoul(text).0 == n && n < 128
    ensures ConnText.Announced(text) == n
  {
  }

  lemma ShortDecimal(n: nat)
    requires n < 100
    ensures |Decimal(n)| <= 2
  {
    assert Dec.Split(n).0 < 10;
    assert n >= 10 ==> Digits(n, Dec) == Digits(Dec.Split(n).0, Dec) + [DIGITS[Dec.Split(n).1]];
  }

  function WidgetLines(w: Widget): seq<string> {
    PieceLines(w.pieces)
      + (if w.list.Some? then ListLines(w.list.value) else [])
      + (if w.proc.Some? then Lines(Field(PROCESSING, w.proc.value)) else [])
  }

  ghost predicate PrintableWidget(w: Widget) {
    && (forall k :: 0 <= k < |w.pieces| ==> Printable(w.pieces[k]))
    && (w.list.Some? ==> forall k :: 0 <= k < |w.list.value.conns| ==> w.list.value.conns[k] < 0x100)
    && (w.proc.Some? ==> Printable(Field(PROCESSING, w.proc.value)))
  }

  /** The parser after the pieces, the connection list and the processing capabilities. */
  function WidgetAfter(f: Fields, w: Widget): Option<State> {
    var s := AfterAll(Some(State(InWidget, f)), w.pieces);
    var s' := if s.Some? && w.list.Some? then Some(ListAfter(s.value, w.list.value)) else s;
    if w.proc.Some? then AfterAny(s', Field(PROCESSING, w.proc.value)) else s'
  }

  /** Parsing what was printed of a widget. */
  lemma WidgetRead(f: Fields, w: Widget)
    requires PrintableWidget(w)
    ensures LinesRead(Some(State(InWidget, f)), WidgetLines(w)) == WidgetAfter(f, w)
  {
    var start := Some(State(InWidget, f));
    var list := if w.list.Some? then ListLines(w.list.value) else [];
    var proc := if w.proc.Some? then Lines(Field(PROCESSING, w.proc.value)) else [];
    FoldedAppend(WholeRead, start, PieceLines(w.pieces) + list, proc);
    FoldedAppend(WholeRead, start, PieceLines(w.pieces), list);
    PiecesRead(start, w.pieces);
    var s := AfterAll(start, w.pieces);
    if s.None? {
      NoneStays(list);
      NoneStays(proc);
    } else {
      if w.list.Some? {
        ListPiece(s.value, w.list.value);
      }
      var s' := if w.list.Some? then ListAfter(s.value, w.list.value) else s.value;
      if w.proc.Some? {
        PieceRead(s', Field(PROCESSING, w.proc.value));
      }
    }
  }

  // ---- What is lost ----

  /** The pieces that take the parser out of the widget, and those that make it leave its buffers. */
  predicate Leaves(p: Piece) {
    p.NoPcmCaps? || (p.InAmps? && p.stereo && |p.pairs| == AmpText.WHOLE_PAIRS)
  }

  predicate RunsOff(p: Piece) {
    p.OutAmps? && p.stereo && |p.pairs| >= AmpText.WHOLE_PAIRS
  }

  /** The parser stays in the widget exactly as long as no piece takes it out. */
  lemma {:induction false} StaysExactly(s: State, pieces: seq<Piece>)
    requires s.mode != InList && forall k :: 0 <= k < |pieces| ==> !RunsOff(pieces[k])
    ensures var s' := AfterAll(Some(s), pieces);
      && s'.Some? && s'.value.mode != InList
      && (Reading(s'.value) <==> Reading(s) && forall k :: 0 <= k < |pieces| ==> !Leaves(pieces[k]))
    decreases |pieces|
  {
    if pieces != [] {
      var p, rest := pieces[0], pieces[1..];
      assert forall k :: 0 <= k < |rest| ==> rest[k] == pieces[k+1];
      StaysExactly(After(s, p).value, rest);
      assert Reading(After(s, p).value) <==> Reading(s) && !Leaves(p);
      assert (forall k :: 0 <= k < |pieces| ==> !Leaves(pieces[k]))
        <==> !Leaves(p) && forall k :: 0 <= k < |rest| ==> !Leaves(rest[k]);
    }
  }

  /** The processing capabilities are printed behind the connection list, and the parser has left the
    * widget after that: they are lost exactly for a list that is not empty. All the rest comes back.
    */
  lemma ProcessingLostExactly(f: Fields, w: Widget)
    requires PrintableWidget(w) && w.proc.Some?
    requires forall k :: 0 <= k < |w.pieces| ==> !RunsOff(w.pieces[k]) && !Leaves(w.pieces[k])
    ensures var r := LinesRead(Some(State(InWidget, f)), WidgetLines(w));
      var before := AfterAll(Some(State(InWidget, f)), w.pieces);
      && r.Some? && before.Some?
      && var listed := if w.list.Some? then ListAfter(before.value, w.list.value).fields else before.value.fields;
         r.value.fields == if w.list.Some? && w.list.value.conns != [] then listed
                           else listed.(plain := listed.plain[PROCESSING := w.proc.value + "\n"])
  {
    WidgetRead(f, w);
    StaysExactly(State(InWidget, f), w.pieces);
  }

  /** A piece that takes the parser out of the widget is the last to be read. */
  lemma CutShort(f: Fields, w: Widget, k: nat)
    requires PrintableWidget(w) && k < |w.pieces| && Leaves(w.pieces[k])
    requires forall j :: 0 <= j < k ==> !RunsOff(w.pieces[j])
    ensures LinesRead(Some(State(InWidget, f)), WidgetLines(w)) == AfterAll(Some(State(InWidget, f)), w.pieces[..k+1])
  {
    WidgetRead(f, w);
    PiecesCut(State(InWidget, f), w.pieces, k);
  }

  lemma PiecesCut(s: State, pieces: seq<Piece>, k: nat)
    requires s.mode != InList && k < |pieces| && Leaves(pieces[k])
    requires forall j :: 0 <= j < k ==> !RunsOff(pieces[j])
    ensures var cut := AfterAll(Some(s), pieces[..k+1]);
      cut.Some? && cut.value.mode == Outside && AfterAll(Some(s), pieces) == cut
  {
    var front, rest := pieces[..k+1], pieces[k+1..];
    StaysExactly(s, front);
    assert Leaves(front[k]);
    assert pieces == front + rest;
    FoldedAppend(AfterAny, Some(s), front, rest);
    OutsideSkips(AfterAll(Some(s), front).value, rest);
  }

  lemma {:induction false} OutsideSkips(s: State, pieces: seq<Piece>)
    requires s.mode == Outside
    ensures AfterAll(Some(s), pieces) == Some(s)
    decreases |pieces|
  {
    if pieces != [] {
      OutsideSkips(s, pieces[1..]);
    }
  }
}
