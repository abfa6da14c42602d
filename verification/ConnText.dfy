/** Connection lists in a codec's proc file: the printer and the parser that has to undo it. */
module ConnText {
  import opened Options
  import opened HdaCodec
  import opened Text
  import opened Sequences

  // ---- Printing ----

  function Item(nid: nat, starred: bool): string {
    " 0x" + Hex2(nid) + if starred then "*" else ""
  }

  /** The entries from `c` on, to the end of the line. */
  function Items(conns: seq<nat>, c: nat, curr: int): string
    requires c <= |conns|
    decreases |conns| - c
  {
    if c == |conns| then "\n" else Item(conns[c], c == curr) + Items(conns, c + 1, curr)
  }

  /** The starred entry: only widgets that select one of several inputs have one. */
  function Starred(widType: nat, len: nat, sel: int): int {
    if len > 1 && widType != AC_WID_AUD_MIX && widType != AC_WID_VOL_KNB && widType != AC_WID_POWER then sel else -1
  }

  const CONNECTION := "Connection: "

  function Header(len: nat): string {
    "  " + (CONNECTION + (Decimal(len) + "\n"))
  }

  function ListLine(conns: seq<nat>, curr: int): string {
    "    " + Items(conns, 0, curr)
  }

  function Printed(widType: nat, conns: seq<nat>, sel: int): string {
    Header(|conns|) + if conns == [] then "" else ListLine(conns, Starred(widType, |conns|, sel))
  }

  lemma ItemWritten(line: string, nid: nat, starred: bool)
    ensures var line' := line + " 0x" + Hex2(nid);
      (if starred then line' + "*" else line') == line + Item(nid, starred)
  {
    var line' := line + " 0x" + Hex2(nid);
    assert line' == line + (" 0x" + Hex2(nid));
    assert (line + (" 0x" + Hex2(nid))) + "*" == line + ((" 0x" + Hex2(nid)) + "*");
  }

  lemma ItemAppended(line: string, conns: seq<nat>, c: nat, curr: int)
    requires c < |conns|
    ensures var line' := line + " 0x" + Hex2(conns[c]);
      (if c == curr then line' + "*" else line') + Items(conns, c + 1, curr) == line + Items(conns, c, curr)
  {
    var item, later := Item(conns[c], c == curr), Items(conns, c + 1, curr);
    ItemWritten(line, conns[c], c == curr);
    Associative(line, item, later);
  }

  method AppendItem(line: string, conn: seq<nat>, c: nat, curr: int) returns (r: string)
    requires c < |conn|
    ensures r + Items(conn, c + 1, curr) == line + Items(conn, c, curr)
  {
    ItemAppended(line, conn, c, curr);
    r := line + " 0x" + Hex2(conn[c]);
    if c == curr {
      r := r + "*";
    }
  }

  /** `sel` is the response to the connection-select verb. */
  method PrintConnList(widType: nat, conn: seq<nat>, sel: int) returns (buffer: string)
    ensures buffer == Printed(widType, conn, sel)
  {
    var curr: int := -1;
    if |conn| > 1 && widType != AC_WID_AUD_MIX && widType != AC_WID_VOL_KNB && widType != AC_WID_POWER {
      curr := sel;
    }
    buffer := Header(|conn|);
    if |conn| > 0 {
      var line := "    ";
      for c := 0 to |conn|
        invariant line + Items(conn, c, curr) == ListLine(conn, curr)
      {
        line := AppendItem(line, conn, c, curr);
      }
      line := line + "\n";
      buffer := buffer + line;
    }
  }

  // ---- Parsing ----

  function StrMatch(s: string, prefix: string): Option<string> {
    if prefix <= s then Some(s[|prefix|..]) else None
  }

  /** At most two leading spaces are skipped. */
  function SkipTwo(s: string): string {
    if s == [] || s[0] != ' ' then s else if |s| == 1 || s[1] != ' ' then s[1..] else s[2..]
  }

  /** The number of entries that a header announces; too large a number counts as none. */
  function Announced(p: string): nat {
    var n := ToUnsigned(Strtoul(p).0);
    if n >= 128 then 0 else n
  }

  function AnnouncedBy(line: string): Option<nat> {
    match StrMatch(SkipTwo(line), CONNECTION)
    case None => None
    case Some(p) => Some(Announced(p))
  }

  function SkipStars(s: string): (rest: string)
    ensures |rest| <= |s|
  {
    if s != [] && (s[0] == '*' || IsSpace(s[0])) then SkipStars(s[1..]) else s
  }

  /** One entry: its value, whether a star follows, and the text behind both. */
  function Entry(s: string): (nat, bool, string) {
    var (v, p) := Strtoul(SkipStars(s));
    if p != [] && p[0] == '*' then (ToUnsigned(v), true, p[1..]) else (ToUnsigned(v), false, p)
  }

  /** `n` entries taken by `read`, the selection after them, and the text that is left. */
  function Repeat(read: string -> (nat, bool, string), s: string, n: nat, curr: nat): (r: (seq<nat>, nat, string))
    ensures |r.0| == n
  {
    if n == 0 then ([], curr, s)
    else
      var (vs, curr', p) := Repeat(read, s, n - 1, curr);
      var (v, starred, p') := read(p);
      (vs + [v], if starred then n - 1 else curr', p')
  }

  function Parsed(s: string, n: nat, curr: nat): (seq<nat>, nat, string) {
    Repeat(Entry, s, n, curr)
  }

  method ParseEntry(buf: string) returns (v: nat, starred: bool, p: string)
    ensures (v, starred, p) == Entry(buf)
  {
    p := buf;
    while p != [] && (p[0] == '*' || IsSpace(p[0]))
      invariant SkipStars(p) == SkipStars(buf)
    {
      p := p[1..];
    }
    var (w, end) := Strtoul(p);
    v, p, starred := ToUnsigned(w), end, false;
    if p != [] && p[0] == '*' {
      starred := true;
      p := p[1..];
    }
  }

  /** `ok` is false where the source would leave the list of the widget record. */
  method ParseNodeConnections(buf: string, numNodes: nat, node: array<nat>, curr: nat)
    returns (ok: bool, currConn: nat)
    requires node.Length == HDA_MAX_NUM_CONNS
    modifies node
    ensures ok <==> numNodes <= HDA_MAX_NUM_CONNS
    ensures ok ==> var r := Parsed(buf, numNodes, curr); node[..numNodes] == r.0 && currConn == r.1
    ensures ok ==> node[numNodes..] == old(node[numNodes..])
  {
    currConn := curr;
    var p := buf;
    for i := 0 to numNodes
      invariant i <= HDA_MAX_NUM_CONNS
      invariant var r := Parsed(buf, i, curr); node[..i] == r.0 && currConn == r.1 && p == r.2
      invariant numNodes <= HDA_MAX_NUM_CONNS ==> node[numNodes..] == old(node[numNodes..])
    {
      if i == HDA_MAX_NUM_CONNS {
        return false, currConn;
      }
      var v, starred;
      v, starred, p := ParseEntry(p);
      node[i] := v;
      if starred {
        currConn := i;
      }
    }
    return true, currConn;
  }

  // ---- The parser undoes the printer ----

  lemma SkipSpace(s: string)
    ensures SkipStars(" " + s) == SkipStars(s)
  {
    assert (" " + s)[1..] == s;
  }

  lemma SkipIndent(s: string)
    ensures SkipStars("    " + s) == SkipStars(s)
  {
    assert "    " + s == " " + (" " + (" " + (" " + s)));
    SkipSpace(" " + (" " + (" " + s)));
    SkipSpace(" " + (" " + s));
    SkipSpace(" " + s);
    SkipSpace(s);
  }

  /** A printed entry is read back, with its star, up to the start of the next. */
  lemma EntryRoundTrip(nid: nat, starred: bool, later: string)
    requires nid < 0x1_0000_0000 && later != [] && (later[0] == ' ' || later[0] == '\n')
    ensures Entry(Item(nid, starred) + later) == (nid, starred, later)
  {
    var star := if starred then "*" else "";
    ItemSkipped(nid, starred, later);
    StarSplit(starred, later);
    StrtoulHex(nid, star + later);
    EntryTaken(Item(nid, starred) + later, nid, star + later);
  }

  lemma EntryTaken(s: string, v: nat, p: string)
    requires v < 0x1_0000_0000 && Strtoul(SkipStars(s)) == (v, p)
    ensures Entry(s) == if p != [] && p[0] == '*' then (v, true, p[1..]) else (v, false, p)
  {
  }

  lemma StarSplit(starred: bool, later: string)
    requires later != [] && later[0] != '*'
    ensures var rest := (if starred then "*" else "") + later;
      rest != [] && (rest[0] == '*' <==> starred) && (if starred then rest[1..] else rest) == later
      && (!starred ==> rest[0] == later[0])
  {
  }

  lemma ItemSkipped(nid: nat, starred: bool, later: string)
    ensures SkipStars(Item(nid, starred) + later) == "0x" + Hex2(nid) + ((if starred then "*" else "") + later)
  {
    var star := if starred then "*" else "";
    var text := "0x" + Hex2(nid) + (star + later);
    assert Item(nid, starred) + later == " " + text;
    SkipSpace(text);
    assert text[0] == '0' && SkipStars(text) == text;
  }

  lemma ItemsStep(conns: seq<nat>, c: nat, curr: int)
    requires c < |conns|
    ensures var later := Items(conns, c + 1, curr);
      && Items(conns, c, curr) == Item(conns[c], c == curr) + later
      && later != [] && (later[0] == ' ' || later[0] == '\n')
  {
    if c + 1 < |conns| {
      assert Item(conns[c+1], c + 1 == curr)[0] == ' ';
    }
  }

  /** If every text is one entry and the next text, repetition goes from the first text to the last. */
  lemma {:induction false} RepeatThrough(read: string -> (nat, bool, string), texts: seq<string>, vs: seq<nat>,
                                         curr: int, i: nat, before: nat)
    requires i <= |vs| && |texts| == |vs| + 1
    requires forall k :: 0 <= k < |vs| ==> read(texts[k]) == (vs[k], k == curr, texts[k+1])
    ensures Repeat(read, texts[0], i, before) == (vs[..i], if 0 <= curr < i then curr else before, texts[i])
  {
    if i > 0 {
      RepeatThrough(read, texts, vs, curr, i - 1, before);
      assert vs[..i] == vs[..i-1] + [vs[i-1]];
    }
  }

  /** What makes no difference to the first entry makes none to the others. */
  lemma {:induction false} RepeatFrom(read: string -> (nat, bool, string), s: string, t: string, i: nat, before: nat)
    requires i > 0 && read(s) == read(t)
    ensures Repeat(read, s, i, before) == Repeat(read, t, i, before)
  {
    if i > 1 {
      RepeatFrom(read, s, t, i - 1, before);
    } else {
      assert Repeat(read, s, 0, before).2 == s && Repeat(read, t, 0, before).2 == t;
    }
  }

  lemma LineRoundTrip(conns: seq<nat>, curr: int, before: nat)
    requires conns != []
    requires forall k :: 0 <= k < |conns| ==> conns[k] < 0x1_0000_0000
    ensures Parsed(ListLine(conns, curr), |conns|, before)
         == (conns, if 0 <= curr < |conns| then curr else before, "\n")
  {
    var texts := seq(|conns| + 1, k requires 0 <= k <= |conns| => Items(conns, k, curr));
    forall k | 0 <= k < |conns|
      ensures Entry(texts[k]) == (conns[k], k == curr, texts[k+1])
    {
      ItemsStep(conns, k, curr);
      EntryRoundTrip(conns[k], k == curr, texts[k+1]);
    }
    RepeatThrough(Entry, texts, conns, curr, |conns|, before);
    SkipIndent(texts[0]);
    RepeatFrom(Entry, "    " + texts[0], texts[0], |conns|, before);
    assert conns[..|conns|] == conns;
  }

  lemma MatchPrefix(prefix: string, rest: string)
    ensures StrMatch(prefix + rest, prefix) == Some(rest)
  {
    assert (prefix + rest)[|prefix|..] == rest;
  }

  lemma AnnouncedNumber(line: string, p: string, n: nat)
    requires StrMatch(SkipTwo(line), CONNECTION) == Some(p) && Strtoul(p).0 == n && n < 0x1_0000_0000
    ensures AnnouncedBy(line) == Some(if n < 128 then n else 0)
  {
  }

  /** A header announces its number, or none if there is no room for so many in the source. */
  lemma HeaderRoundTrip(len: nat)
    requires len < 0x1_0000_0000
    ensures AnnouncedBy(Header(len)) == Some(if len < 128 then len else 0)
  {
    var text := Decimal(len) + "\n";
    SkipIndent2(CONNECTION + text);
    MatchPrefix(CONNECTION, text);
    StrtoulDecimal(len, "\n");
    AnnouncedNumber(Header(len), text, len);
  }

  lemma SkipIndent2(s: string)
    ensures SkipTwo("  " + s) == s
  {
    assert ("  " + s)[2..] == s;
  }

  /** The header announces the length, and the line gives back every NID in order, with the
    * selection moved exactly when a star was printed.
    */
  lemma ConnListRoundTrip(widType: nat, conns: Conns, sel: nat, before: nat)
    requires forall k :: 0 <= k < |conns| ==> conns[k] < 0x1_0000_0000
    ensures AnnouncedBy(Header(|conns|)) == Some(|conns|)
    ensures var curr := Starred(widType, |conns|, sel);
      conns != [] ==> var r := Parsed(ListLine(conns, curr), |conns|, before);
        r.0 == conns && r.1 == if curr == sel && sel < |conns| then sel else before
  {
    HeaderRoundTrip(|conns|);
    if conns != [] {
      LineRoundTrip(conns, Starred(widType, |conns|, sel), before);
    }
  }

  /** The selection of a widget that selects, by type, one of several entries is what the parser makes
    * of the printed line; for all others there is no star in the line, and the selection stays.
    */
  lemma SelectionComesBack(widType: nat, conns: Conns, sel: nat, before: nat)
    requires conns != [] && forall k :: 0 <= k < |conns| ==> conns[k] < 0x1_0000_0000
    ensures var line := ListLine(conns, Starred(widType, |conns|, sel));
      var selects := |conns| > 1 && widType != 2 && widType != 5 && widType != 6 && sel < |conns|;
      && Parsed(line, |conns|, before).0 == conns
      && Parsed(line, |conns|, before).1 == (if selects then sel else before)
      && ('*' in line <==> selects)
  {
    ConnListRoundTrip(widType, conns, sel, before);
    StarsExactly(conns, 0, Starred(widType, |conns|, sel));
  }

  lemma {:induction false} StarsExactly(conns: seq<nat>, c: nat, curr: int)
    requires c <= |conns|
    ensures '*' in Items(conns, c, curr) <==> c <= curr < |conns|
    decreases |conns| - c
  {
    if c < |conns| {
      StarsExactly(conns, c + 1, curr);
      NoStar(conns[c]);
      var item := Item(conns[c], c == curr);
      assert '*' in item <==> c == curr by {
        if c == curr {
          assert item[|item| - 1] == '*';
        }
      }
    }
  }

  lemma NoStar(nid: nat)
    ensures '*' !in " 0x" + Hex2(nid)
  {
    DigitsOnly(nid, '*');
  }

  /** The lists of the widget record fit the line buffer of the parser, if NIDs are bytes. */
  lemma ListLineFits(conns: Conns, curr: int)
    requires forall k :: 0 <= k < |conns| ==> conns[k] < 0x100
    ensures |ListLine(conns, curr)| <= LINE_MAX
  {
    ItemsLength(conns, 0, curr);
  }

  lemma {:induction false} ItemsLength(conns: seq<nat>, c: nat, curr: int)
    requires c <= |conns| && forall k :: 0 <= k < |conns| ==> conns[k] < 0x100
    ensures |Items(conns, c, curr)| == 5 * (|conns| - c) + (if c <= curr < |conns| then 2 else 1)
    decreases |conns| - c
  {
    if c < |conns| {
      ByteText(conns[c]);
      ItemsLength(conns, c + 1, curr);
    }
  }
}
