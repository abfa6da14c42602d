/** Amplifier values in a codec's proc file: the printer and the parser that has to undo it. */
module AmpText {
  import opened Options
  import opened HdaCodec
  import opened Text
  import opened Sequences

  // ---- Printing ----

  /** A bracket with the texts of two bytes, and one with the text of one. */
  function Both(left: string, right: string): string {
    "[0x" + (left + (" 0x" + (right + "]")))
  }

  function Single(right: string): string {
    "[0x" + (right + "]")
  }

  function Body(pair: AmpPair, stereo: bool): string {
    if stereo then Both(Hex2(pair.left), Hex2(pair.right)) else Single(Hex2(pair.right))
  }

  function Item(pair: AmpPair, stereo: bool): string {
    " " + Body(pair, stereo)
  }

  function ItemOf(stereo: bool): AmpPair -> string {
    (pair: AmpPair) => Item(pair, stereo)
  }

  /** The values from `c` on, and what comes behind them: the end of the line, unless it is cut. */
  function Items(pairs: seq<AmpPair>, c: nat, stereo: bool, end: string): string
    requires c <= |pairs|
  {
    Joined(ItemOf(stereo), pairs, c, end)
  }

  /** `pairs` are the responses to the amplifier-get verb, index by index. */
  method PrintAmpVals(pairs: seq<AmpPair>, stereo: bool) returns (buffer: string)
    ensures buffer == Items(pairs, 0, stereo, "\n")
  {
    buffer := "";
    for i := 0 to |pairs|
      invariant buffer + Items(pairs, i, stereo, "\n") == Items(pairs, 0, stereo, "\n")
    {
      var item := PrintPair(pairs[i], stereo);
      ItemAppended(buffer, pairs, i, stereo, "\n");
      buffer := buffer + item;
    }
    buffer := buffer + "\n";
  }

  lemma ItemAppended(buffer: string, pairs: seq<AmpPair>, i: nat, stereo: bool, end: string)
    requires i < |pairs|
    ensures (buffer + Item(pairs[i], stereo)) + Items(pairs, i + 1, stereo, end)
         == buffer + Items(pairs, i, stereo, end)
  {
    Associative(buffer, Item(pairs[i], stereo), Items(pairs, i + 1, stereo, end));
  }

  method PrintPair(pair: AmpPair, stereo: bool) returns (item: string)
    ensures item == Item(pair, stereo)
  {
    var left, right := Hex2(pair.left), Hex2(pair.right);
    item := " [";
    if stereo {
      item := item + ("0x" + left + " ");
    }
    item := item + ("0x" + right + "]");
    PrintedPieces(left, right);
  }

  lemma PrintedPieces(left: string, right: string)
    ensures " [" + ("0x" + left + " ") + ("0x" + right + "]") == " " + Both(left, right)
    ensures " [" + ("0x" + right + "]") == " " + Single(right)
  {
  }

  // ---- Parsing ----

  /** %02x of sscanf: one or two hexadecimal digits after any spaces. */
  function ScanByte(s: string): Option<(Byte, string)> {
    var t := SkipSpaces(s);
    if !StartsWithDigit(t, Hex) then None
    else if !StartsWithDigit(t[1..], Hex) then Some((DigitValue(t[0]), t[1..]))
    else Some((16 * DigitValue(t[0]) + DigitValue(t[1]), t[2..]))
  }

  /** sscanf of "[0x%02x 0x%02x]", which has both values before it looks for the bracket. */
  function ScanPair(s: string): Option<AmpPair> {
    if !("[0x" <= s) then None
    else
      match ScanByte(s[3..])
      case None => None
      case Some((left, t)) =>
        var u := SkipSpaces(t);
        if !("0x" <= u) then None
        else
          match ScanByte(u[2..])
          case None => None
          case Some((right, _)) => Some(AmpPair(left, right))
  }

  /** The text behind the next closing bracket, if there is one. */
  function PastBracket(s: string): (r: Option<string>)
    ensures r.Some? ==> |r.value| < |s|
  {
    if s == [] then None else if s[0] == ']' then Some(s[1..]) else PastBracket(s[1..])
  }

  /** One turn of the loop: no pair here, a pair and the text after it, or a pair with no bracket
    * behind it, where the source reads on past the end of the line.
    */
  datatype Turn = Stop | Pair(pair: AmpPair, rest: string) | RunsOff

  function ReadPair(s: string): (t: Turn)
    ensures t.Pair? ==> |t.rest| < |s|
  {
    match ScanPair(s)
    case None => Stop
    case Some(pair) =>
      match PastBracket(s)
      case None => RunsOff
      case Some(t) => Pair(pair, SkipSpaces(t))
  }

  /** The values stored from index `n` on; `None` if the source would leave its buffers. */
  function Repeat(read: string -> Turn, s: string, n: nat, vals: AmpVals): Option<AmpVals>
    requires forall t :: read(t).Pair? ==> |read(t).rest| < |t|
    decreases |s|
  {
    match read(s)
    case Stop => Some(vals)
    case RunsOff => None
    case Pair(pair, rest) =>
      if n >= HDA_MAX_NUM_CONNS then None
      else if rest == [] then Some(vals[n := pair])
      else Repeat(read, rest, n + 1, vals[n := pair])
  }

  /** The values and the copy of them that is kept as the original. */
  function Parsed(s: string, vals: AmpVals, orig: AmpVals): Option<(AmpVals, AmpVals)> {
    var t := SkipSpaces(s);
    if t == [] then Some((vals, orig))
    else if t[0] == '[' then
      match Repeat(ReadPair, t, 0, vals)
      case None => None
      case Some(v) => Some((v, v))
    else
      var (left, p) := Strtoul(t);
      var v := vals[0 := AmpPair(left % 0x100, Strtoul(p).0 % 0x100)];
      Some((v, v))
  }

  /** `ok` is false where the source would leave its buffers. */
  method ParseAmpVals(buf: string, vals0: AmpVals, orig0: AmpVals)
    returns (ok: bool, vals: AmpVals, orig: AmpVals)
    ensures ok == Parsed(buf, vals0, orig0).Some?
    ensures ok ==> Parsed(buf, vals0, orig0) == Some((vals, orig))
  {
    ok, vals, orig := true, vals0, orig0;
    var p := SkipSpaces(buf);
    if p == [] {
      return;
    }
    if p[0] == '[' {
      ok, vals := ParsePairs(p, vals0);
    } else {
      var (left, q) := Strtoul(p);
      vals := vals[0 := AmpPair(left % 0x100, Strtoul(q).0 % 0x100)];
    }
    orig := vals;
  }

  /** The loop of the new format. */
  method ParsePairs(buf: string, vals0: AmpVals) returns (ok: bool, vals: AmpVals)
    ensures ok == Repeat(ReadPair, buf, 0, vals0).Some?
    ensures ok ==> Repeat(ReadPair, buf, 0, vals0) == Some(vals)
  {
    var p, n, more := buf, 0, true;
    ok, vals := true, vals0;
    while more
      invariant Repeat(ReadPair, buf, 0, vals0)
             == if more then Repeat(ReadPair, p, n, vals) else if ok then Some(vals) else None
      decreases more, |p|
    {
      more, ok, p, vals := TakePair(p, n, vals);
      n := n + 1;
    }
  }

  /** One turn of it: `more` tells that the loop goes on. */
  method TakePair(buf: string, n: nat, vals0: AmpVals) returns (more: bool, ok: bool, p: string, vals: AmpVals)
    ensures more ==> |p| < |buf| && Repeat(ReadPair, buf, n, vals0) == Repeat(ReadPair, p, n + 1, vals)
    ensures !more ==> Repeat(ReadPair, buf, n, vals0) == if ok then Some(vals) else None
  {
    p, vals := buf, vals0;
    var turn := ParsePair(buf);
    match turn
    case Stop => more, ok := false, true;
    case RunsOff => more, ok := false, false;
    case Pair(pair, rest) =>
      if n >= HDA_MAX_NUM_CONNS {
        more, ok := false, false;
      } else {
        vals, p := vals[n := pair], rest;
        more, ok := p != [], true;
      }
  }

  method ParsePair(buf: string) returns (turn: Turn)
    ensures turn == ReadPair(buf)
  {
    var pair := ScanPair(buf);
    if pair.None? {
      return Stop;
    }
    var p := buf;
    while p != [] && p[0] != ']'
      invariant PastBracket(p) == PastBracket(buf)
    {
      p := p[1..];
    }
    if p == [] {
      return RunsOff;
    }
    p := p[1..];
    while p != [] && IsSpace(p[0])
      invariant SkipSpaces(p) == SkipSpaces(PastBracket(buf).value)
    {
      p := p[1..];
    }
    return Pair(pair.value, p);
  }

  // ---- The parser undoes the printer ----

  lemma ScanPrinted(b: Byte, rest: string)
    requires !StartsWithDigit(rest, Hex)
    ensures ScanByte(Hex2(b) + rest) == Some((b, rest))
  {
    ByteText(b);
    DigitRoundTrip(b / 16);
    DigitRoundTrip(b % 16);
    ScanTwo(DIGITS[b / 16], DIGITS[b % 16], rest);
  }

  lemma ScanTwo(hi: char, lo: char, rest: string)
    requires DigitValue(hi) < 16 && DigitValue(lo) < 16
    ensures ScanByte([hi, lo] + rest) == Some((16 * DigitValue(hi) + DigitValue(lo), rest))
  {
    var s := [hi, lo] + rest;
    assert SkipSpaces(s) == s && s[1..][0] == lo && s[2..] == rest;
  }

  lemma NoBracket(b: Byte)
    ensures ']' !in Hex2(b)
  {
    ByteText(b);
    DigitRoundTrip(b / 16);
    DigitRoundTrip(b % 16);
  }

  lemma {:induction false} BracketAfter(a: string, later: string)
    requires ']' !in a
    ensures PastBracket(a + ("]" + later)) == Some(later)
  {
    var s := a + ("]" + later);
    if a == [] {
      assert s[0] == ']' && s[1..] == later;
    } else {
      assert s[0] == a[0] && s[1..] == a[1..] + ("]" + later);
      BracketAfter(a[1..], later);
    }
  }

  lemma SplitBoth(left: string, right: string, later: string)
    ensures Both(left, right) + later == "[0x" + (left + (" 0x" + (right + ("]" + later))))
    ensures Both(left, right) + later == ("[0x" + (left + (" 0x" + right))) + ("]" + later)
  {
  }

  lemma Chop3(s: string, rest: string)
    requires |s| == 3
    ensures s <= s + rest && (s + rest)[3..] == rest
  {
  }

  lemma ScanBoth(left: string, right: string, pair: AmpPair, behind: string)
    requires ScanByte(left + (" 0x" + (right + behind))) == Some((pair.left, " 0x" + (right + behind)))
    requires ScanByte(right + behind) == Some((pair.right, behind))
    ensures ScanPair("[0x" + (left + (" 0x" + (right + behind)))) == Some(pair)
  {
    var mid := right + behind;
    Chop3("[0x", left + (" 0x" + mid));
    assert (" 0x" + mid)[1..] == "0x" + mid && ("0x" + mid)[2..] == mid;
    assert SkipSpaces("0x" + mid) == "0x" + mid;
    assert SkipSpaces(" 0x" + mid) == "0x" + mid;
  }

  /** The closing bracket plays no part in reading the values. */
  lemma ValuesScanned(pair: AmpPair, behind: string)
    requires !StartsWithDigit(behind, Hex)
    ensures ScanPair("[0x" + (Hex2(pair.left) + (" 0x" + (Hex2(pair.right) + behind)))) == Some(pair)
  {
    ScanPrinted(pair.left, " 0x" + (Hex2(pair.right) + behind));
    ScanPrinted(pair.right, behind);
    ScanBoth(Hex2(pair.left), Hex2(pair.right), pair, behind);
  }

  lemma PairScanned(pair: AmpPair, later: string)
    ensures ScanPair(Body(pair, true) + later) == Some(pair)
  {
    SplitBoth(Hex2(pair.left), Hex2(pair.right), later);
    ValuesScanned(pair, "]" + later);
  }

  lemma PairPassed(pair: AmpPair, later: string)
    ensures PastBracket(Body(pair, true) + later) == Some(later)
  {
    var left, right := Hex2(pair.left), Hex2(pair.right);
    NoBracket(pair.left);
    NoBracket(pair.right);
    SplitBoth(left, right, later);
    BracketAfter("[0x" + (left + (" 0x" + right)), later);
  }

  lemma PairRoundTrip(pair: AmpPair, later: string)
    ensures ReadPair(Body(pair, true) + later) == Pair(pair, SkipSpaces(later))
  {
    PairScanned(pair, later);
    PairPassed(pair, later);
  }

  /** The first values replaced, the others kept. */
  function Overwritten(pairs: seq<AmpPair>, n: nat, vals: AmpVals): (r: AmpVals)
    requires n <= |pairs| <= HDA_MAX_NUM_CONNS
  {
    pairs[..n] + vals[n..]
  }

  /** If every text is one pair and the next text, repetition stores all of them. */
  lemma {:induction false} RepeatThrough(
    read: string -> Turn, texts: seq<string>, pairs: seq<AmpPair>, n: nat, vals: AmpVals)
    requires forall t :: read(t).Pair? ==> |read(t).rest| < |t|
    requires n < |pairs| <= HDA_MAX_NUM_CONNS && |texts| == |pairs| + 1
    requires forall k :: 0 <= k < |pairs| ==> read(texts[k]) == Pair(pairs[k], texts[k+1])
    requires forall k :: 0 <= k <= |pairs| ==> (texts[k] == [] <==> k == |pairs|)
    ensures Repeat(read, texts[n], n, Overwritten(pairs, n, vals)) == Some(Overwritten(pairs, |pairs|, vals))
    decreases |pairs| - n
  {
    assert read(texts[n]) == Pair(pairs[n], texts[n+1]);
    assert Overwritten(pairs, n, vals)[n := pairs[n]] == Overwritten(pairs, n + 1, vals);
    if n + 1 < |pairs| {
      RepeatThrough(read, texts, pairs, n + 1, vals);
    }
  }

  /** The items from `c` on as the parser meets them, without leading space. */
  function Trimmed(pairs: seq<AmpPair>, c: nat, stereo: bool, end: string): string
    requires c <= |pairs|
  {
    if c == |pairs| then SkipSpaces(end) else Body(pairs[c], stereo) + Items(pairs, c + 1, stereo, end)
  }

  lemma SkipOneSpace(body: string, later: string)
    requires body != [] && !IsSpace(body[0])
    ensures SkipSpaces((" " + body) + later) == body + later
  {
    Associative(" ", body, later);
    assert (" " + (body + later))[1..] == body + later;
  }

  lemma BodyStart(pair: AmpPair, stereo: bool)
    ensures Body(pair, stereo) != [] && Body(pair, stereo)[0] == '['
  {
  }

  lemma TrimmedIsSkipped(pairs: seq<AmpPair>, c: nat, stereo: bool, end: string)
    requires c <= |pairs|
    ensures SkipSpaces(Items(pairs, c, stereo, end)) == Trimmed(pairs, c, stereo, end)
    ensures c < |pairs| ==> Trimmed(pairs, c, stereo, end) != [] && Trimmed(pairs, c, stereo, end)[0] == '['
  {
    if c < |pairs| {
      BodyStart(pairs[c], stereo);
      SkipOneSpace(Body(pairs[c], stereo), Items(pairs, c + 1, stereo, end));
    }
  }

  lemma TextsChain(pairs: seq<AmpPair>, k: nat, end: string)
    requires k < |pairs|
    ensures ReadPair(Trimmed(pairs, k, true, end)) == Pair(pairs[k], Trimmed(pairs, k + 1, true, end))
  {
    PairRoundTrip(pairs[k], Items(pairs, k + 1, true, end));
    TrimmedIsSkipped(pairs, k + 1, true, end);
  }

  lemma TextsAllChain(pairs: seq<AmpPair>, end: string)
    ensures forall k :: 0 <= k < |pairs| ==>
      var texts := Texts(pairs, end); ReadPair(texts[k]) == Pair(pairs[k], texts[k+1]) && texts[k] != []
  {
    var texts := Texts(pairs, end);
    forall k | 0 <= k < |pairs|
      ensures ReadPair(texts[k]) == Pair(pairs[k], texts[k+1]) && texts[k] != []
    {
      TextsChain(pairs, k, end);
      TrimmedIsSkipped(pairs, k, true, end);
    }
  }

  lemma AllStored(pairs: seq<AmpPair>, end: string, vals: AmpVals)
    requires 0 < |pairs| <= HDA_MAX_NUM_CONNS && SkipSpaces(end) == []
    ensures Repeat(ReadPair, Trimmed(pairs, 0, true, end), 0, vals) == Some(Overwritten(pairs, |pairs|, vals))
  {
    var texts := Texts(pairs, end);
    TextsAllChain(pairs, end);
    assert texts[|pairs|] == [];
    RepeatThrough(ReadPair, texts, pairs, 0, vals);
    assert Overwritten(pairs, 0, vals) == vals;
  }

  lemma ParsedBracket(s: string, t: string, vals: AmpVals, orig: AmpVals, v: AmpVals)
    requires SkipSpaces(s) == t && t != [] && t[0] == '[' && Repeat(ReadPair, t, 0, vals) == Some(v)
    ensures Parsed(s, vals, orig) == Some((v, v))
  {
  }

  /** Parsing a stereo line restores every pair at its index, keeps the values behind them, and
    * saves the same values as the originals.
    */
  lemma AmpValsRoundTrip(pairs: seq<AmpPair>, end: string, vals: AmpVals, orig: AmpVals)
    requires 0 < |pairs| <= HDA_MAX_NUM_CONNS && SkipSpaces(end) == []
    ensures var restored := Overwritten(pairs, |pairs|, vals);
      Parsed(Items(pairs, 0, true, end), vals, orig) == Some((restored, restored))
  {
    var restored := Overwritten(pairs, |pairs|, vals);
    TrimmedIsSkipped(pairs, 0, true, end);
    AllStored(pairs, end, vals);
    ParsedBracket(Items(pairs, 0, true, end), Trimmed(pairs, 0, true, end), vals, orig, restored);
  }

  /** A line without values changes neither. */
  lemma EmptyLineRoundTrip(stereo: bool, vals: AmpVals, orig: AmpVals)
    ensures Parsed(Items([], 0, stereo, "\n"), vals, orig) == Some((vals, orig))
  {
    TrimmedIsSkipped([], 0, stereo, "\n");
  }

  function Texts(pairs: seq<AmpPair>, end: string): (texts: seq<string>)
    ensures |texts| == |pairs| + 1
    ensures forall k :: 0 <= k <= |pairs| ==> texts[k] == Trimmed(pairs, k, true, end)
  {
    seq(|pairs| + 1, k requires 0 <= k <= |pairs| => Trimmed(pairs, k, true, end))
  }

  /** A mono line has one value to a bracket: the parser takes none of them, so that it restores the
    * values exactly when they were there already.
    */
  lemma MonoIsLost(pairs: seq<AmpPair>, vals: AmpVals, orig: AmpVals)
    requires 0 < |pairs| <= HDA_MAX_NUM_CONNS
    ensures Parsed(Items(pairs, 0, false, "\n"), vals, orig) == Some((vals, vals))
  {
    TrimmedIsSkipped(pairs, 0, false, "\n");
    SingleStops(pairs[0].right, Items(pairs, 1, false, "\n"));
    ParsedBracket(Items(pairs, 0, false, "\n"), Trimmed(pairs, 0, false, "\n"), vals, orig, vals);
  }

  lemma SingleStops(right: Byte, later: string)
    ensures ReadPair(Single(Hex2(right)) + later) == Stop
  {
    var text := Hex2(right);
    assert Single(text) + later == "[0x" + (text + ("]" + later));
    ScanPrinted(right, "]" + later);
    NoSecondValue(text + ("]" + later), right, later);
  }

  lemma NoSecondValue(mid: string, left: Byte, later: string)
    requires ScanByte(mid) == Some((left, "]" + later))
    ensures ScanPair("[0x" + mid).None?
  {
    Chop3("[0x", mid);
    assert SkipSpaces("]" + later) == "]" + later;
  }

  // ---- Lines longer than the line buffer ----

  const AMP_IN := "  Amp-In vals: "
  const AMP_OUT := "  Amp-Out vals: "

  /** The pairs of which a line buffer holds all the text, at least up to the last bracket. */
  const WHOLE_PAIRS: nat := 20

  lemma ItemLength(pair: AmpPair, stereo: bool)
    ensures |Item(pair, stereo)| == if stereo then 12 else 7
  {
    ByteText(pair.left);
    ByteText(pair.right);
  }

  lemma ItemsLength(pairs: seq<AmpPair>, c: nat, stereo: bool, end: string)
    requires c <= |pairs|
    ensures |Items(pairs, c, stereo, end)| == (if stereo then 12 else 7) * (|pairs| - c) + |end|
  {
    forall pair | pair in pairs
      ensures |ItemOf(stereo)(pair)| == if stereo then 12 else 7
    {
      ItemLength(pair, stereo);
    }
    JoinedLength(ItemOf(stereo), pairs, c, end, if stereo then 12 else 7);
  }

  /** A line cut by the buffer: what is read first, behind the heading, and what is left. */
  lemma LineCut(heading: string, a: string, b: string)
    requires |heading| + |a| == LINE_MAX
    ensures var line := heading + (a + b);
      FirstRead(line) == heading + a && FirstRead(line)[|heading|..] == a && line[LINE_MAX..] == b
  {
    assert heading + (a + b) == (heading + a) + b;
  }

  /** A short line is read as a whole. */
  lemma ShortLine(heading: string, pairs: seq<AmpPair>, vals: AmpVals, orig: AmpVals)
    requires 0 < |pairs| <= HDA_MAX_NUM_CONNS && |heading| + 12 * |pairs| + 1 <= LINE_MAX
    ensures var line := heading + Items(pairs, 0, true, "\n"); var r := Overwritten(pairs, |pairs|, vals);
      && FirstRead(line) == line && line[|heading|..] == Items(pairs, 0, true, "\n")
      && Parsed(Items(pairs, 0, true, "\n"), vals, orig) == Some((r, r))
  {
    ItemsLength(pairs, 0, true, "\n");
    assert SkipSpaces("\n") == [];
    AmpValsRoundTrip(pairs, "\n", vals, orig);
  }

  lemma InputHeading(heading: string, pairs: seq<AmpPair>, vals: AmpVals, orig: AmpVals)
    requires |heading| == |AMP_IN| && 0 < |pairs| <= HDA_MAX_NUM_CONNS
    ensures var line := heading + Items(pairs, 0, true, "\n"); var read := FirstRead(line);
      var r := Overwritten(pairs, if |pairs| <= WHOLE_PAIRS then |pairs| else WHOLE_PAIRS, vals);
      && heading <= read && Parsed(read[|heading|..], vals, orig) == Some((r, r))
      && line[|read|..] == (if |pairs| < WHOLE_PAIRS then "" else Items(pairs, WHOLE_PAIRS, true, "\n"))
      && (LeavesWidget(line[|read|..]) <==> |pairs| == WHOLE_PAIRS)
  {
    assert |heading| == 15;
    if |pairs| < WHOLE_PAIRS {
      ShortLine(heading, pairs, vals, orig);
    } else {
      var m := WHOLE_PAIRS;
      var head, rest := Items(pairs[..m], 0, true, ""), Items(pairs, m, true, "\n");
      JoinedSplit(ItemOf(true), pairs, 0, m, "\n");
      JoinedEnd(ItemOf(true), pairs[..m], 0, "", rest);
      assert "" + rest == rest;
      ItemsLength(pairs[..m], 0, true, "");
      LineCut(heading, head, rest);
      AmpValsRoundTrip(pairs[..m], "", vals, orig);
      assert Overwritten(pairs[..m], m, vals) == Overwritten(pairs, m, vals);
      RestStarts(pairs, m);
    }
  }

  lemma RestStarts(pairs: seq<AmpPair>, m: nat)
    requires m <= |pairs|
    ensures LeavesWidget(Items(pairs, m, true, "\n")) <==> |pairs| == m
  {
    if m < |pairs| {
      assert Items(pairs, m, true, "\n")[0] == Item(pairs[m], true)[0] == ' ';
    }
  }

  lemma OutputHeading(heading: string, pairs: seq<AmpPair>, vals: AmpVals, orig: AmpVals)
    requires |heading| == |AMP_OUT| && 0 < |pairs| <= HDA_MAX_NUM_CONNS
    ensures var read := FirstRead(heading + Items(pairs, 0, true, "\n"));
      && heading <= read
      && (Parsed(read[|heading|..], vals, orig).Some? <==> |pairs| < WHOLE_PAIRS)
      && (|pairs| < WHOLE_PAIRS ==>
            var r := Overwritten(pairs, |pairs|, vals); Parsed(read[|heading|..], vals, orig) == Some((r, r)))
  {
    assert |heading| == 16;
    if |pairs| < WHOLE_PAIRS {
      ShortLine(heading, pairs, vals, orig);
    } else {
      var m := WHOLE_PAIRS - 1;
      CutLine(heading, pairs, m);
      CutRunsOff(pairs[..m], pairs[m], vals, orig);
    }
  }

  /** The buffer ends before the bracket of pair `m`. */
  lemma CutLine(heading: string, pairs: seq<AmpPair>, m: nat)
    requires m < |pairs| && |heading| + 12 * m + 11 == LINE_MAX
    ensures var read := FirstRead(heading + Items(pairs, 0, true, "\n"));
      heading <= read && read[|heading|..] == Items(pairs[..m], 0, true, CutItem(pairs[m]))
  {
    var cut, later := CutItem(pairs[m]), Items(pairs, m + 1, true, "\n");
    JoinedSplit(ItemOf(true), pairs, 0, m, "\n");
    CutBeforeBracket(pairs[m], later);
    JoinedEnd(ItemOf(true), pairs[..m], 0, cut, "]" + later);
    ItemsLength(pairs[..m], 0, true, cut);
    LineCut(heading, Items(pairs[..m], 0, true, cut), "]" + later);
  }

  lemma CutBeforeBracket(pair: AmpPair, later: string)
    ensures Item(pair, true) + later == CutItem(pair) + ("]" + later) && |CutItem(pair)| == 11
  {
    ByteText(pair.left);
    ByteText(pair.right);
  }

  /** An item without its closing bracket. */
  function CutItem(pair: AmpPair): string {
    " [0x" + (Hex2(pair.left) + (" 0x" + Hex2(pair.right)))
  }

  lemma {:induction false} NoBracketAtAll(a: string)
    requires ']' !in a
    ensures PastBracket(a).None?
  {
    if a != [] {
      NoBracketAtAll(a[1..]);
    }
  }

  lemma CutStarts(last: AmpPair)
    ensures ReadPair(SkipSpaces(CutItem(last))) == RunsOff
  {
    var left, right := Hex2(last.left), Hex2(last.right);
    var body := "[0x" + (left + (" 0x" + right));
    assert CutItem(last)[1..] == body && SkipSpaces(body) == body;
    assert right + "" == right;
    ValuesScanned(last, "");
    NoBracket(last.left);
    NoBracket(last.right);
    NoBracketAtAll(body);
  }

  /** If every text but the last is one pair and the next text, repetition fails if that does. */
  lemma {:induction false} RepeatToRunsOff(
    read: string -> Turn, texts: seq<string>, pairs: seq<AmpPair>, n: nat, vals: AmpVals)
    requires forall t :: read(t).Pair? ==> |read(t).rest| < |t|
    requires n <= |pairs| && |texts| == |pairs| + 1 && read(texts[|pairs|]) == RunsOff
    requires forall k :: 0 <= k < |pairs| ==> read(texts[k]) == Pair(pairs[k], texts[k+1])
    requires forall k :: 0 <= k <= |pairs| ==> texts[k] != []
    ensures Repeat(read, texts[n], n, vals).None?
    decreases |pairs| - n
  {
    if n < |pairs| {
      assert read(texts[n]) == Pair(pairs[n], texts[n+1]);
      if n < HDA_MAX_NUM_CONNS {
        RepeatToRunsOff(read, texts, pairs, n + 1, vals[n := pairs[n]]);
      }
    }
  }

  lemma CutRunsOff(pairs: seq<AmpPair>, last: AmpPair, vals: AmpVals, orig: AmpVals)
    requires 0 < |pairs| < HDA_MAX_NUM_CONNS
    ensures Parsed(Items(pairs, 0, true, CutItem(last)), vals, orig).None?
  {
    var texts := Texts(pairs, CutItem(last));
    TextsAllChain(pairs, CutItem(last));
    CutStarts(last);
    RepeatToRunsOff(ReadPair, texts, pairs, 0, vals);
    TrimmedIsSkipped(pairs, 0, true, CutItem(last));
    assert Overwritten(pairs, 0, vals) == vals;
  }

  /** Behind the heading of the input amplifiers the buffer has room for 20 pairs and no more: exactly
    * those are restored. The rest of the line is read as a line of its own. It takes the parser out
    * of the widget, whose remaining lines are then lost, exactly when it is the bare line end.
    */
  lemma InputLineExactly(pairs: seq<AmpPair>, vals: AmpVals, orig: AmpVals)
    requires 0 < |pairs| <= HDA_MAX_NUM_CONNS
    ensures var line := AMP_IN + Items(pairs, 0, true, "\n"); var read := FirstRead(line);
      var r := Overwritten(pairs, if |pairs| <= WHOLE_PAIRS then |pairs| else WHOLE_PAIRS, vals);
      && AMP_IN <= read && Parsed(read[|AMP_IN|..], vals, orig) == Some((r, r))
      && line[|read|..] == (if |pairs| < WHOLE_PAIRS then "" else Items(pairs, WHOLE_PAIRS, true, "\n"))
      && (LeavesWidget(line[|read|..]) <==> |pairs| == WHOLE_PAIRS)
  {
    InputHeading(AMP_IN, pairs, vals, orig);
  }

  /** The heading of the output amplifiers is longer by one: the 20th pair lacks its bracket, and in
    * search of that the parser runs off the buffer.
    */
  lemma OutputLineExactly(pairs: seq<AmpPair>, vals: AmpVals, orig: AmpVals)
    requires 0 < |pairs| <= HDA_MAX_NUM_CONNS
    ensures var read := FirstRead(AMP_OUT + Items(pairs, 0, true, "\n"));
      && AMP_OUT <= read
      && (Parsed(read[|AMP_OUT|..], vals, orig).Some? <==> |pairs| < WHOLE_PAIRS)
      && (|pairs| < WHOLE_PAIRS ==>
            var r := Overwritten(pairs, |pairs|, vals); Parsed(read[|AMP_OUT|..], vals, orig) == Some((r, r)))
  {
    OutputHeading(AMP_OUT, pairs, vals, orig);
  }

  // ---- The old format ----

  /** Two numbers without brackets are the left and the right value of the first index. */
  lemma OldFormat(pair: AmpPair, rest: string, vals: AmpVals, orig: AmpVals)
    requires !StartsWithDigit(rest, Hex)
    ensures var line := "0x" + Hex2(pair.left) + (" " + ("0x" + Hex2(pair.right) + rest));
      Parsed(line, vals, orig) == Some((vals[0 := pair], vals[0 := pair]))
  {
    var second := "0x" + Hex2(pair.right) + rest;
    var line := "0x" + Hex2(pair.left) + (" " + second);
    StrtoulHex(pair.left, " " + second);
    StrtoulHex(pair.right, rest);
    StrtoulIndented(second);
    assert line[0] == '0';
    OldParsed(line, pair, " " + second, vals, orig);
  }

  lemma OldParsed(line: string, pair: AmpPair, behind: string, vals: AmpVals, orig: AmpVals)
    requires line != [] && line[0] == '0'
    requires Strtoul(line) == (pair.left as int, behind) && Strtoul(behind).0 == pair.right
    ensures Parsed(line, vals, orig) == Some((vals[0 := pair], vals[0 := pair]))
  {
    assert SkipSpaces(line) == line;
  }

  lemma StrtoulIndented(s: string)
    requires s != [] && s[0] == '0'
    ensures Strtoul(" " + s).0 == Strtoul(s).0
  {
    assert (" " + s)[1..] == s && SkipSpaces(s) == s && SkipSpaces(" " + s) == s;
  }
}
