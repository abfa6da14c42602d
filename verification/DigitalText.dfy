/** The flags of a digital converter in a codec's proc file, printed and parsed by name. */
module DigitalText {
  import opened Options
  import opened Sequences

  type Bits = bv8

  /** The names in the order in which the parser tries them. */
  function Name(j: nat): string
    requires j < 8
  {
    match j
    case 0 => " Enabled"
    case 1 => " ValidityCfg"
    case 2 => " Validity"
    case 3 => " Preemphasis"
    case 4 => " Copyright"
    case 5 => " Non-Audio"
    case 6 => " Pro"
    case _ => " GenLevel"
  }

  const VALIDITY: nat := 2
  const CFG := "Cfg"

  function BitOf(j: nat): Bits
    requires j < 8
  {
    match j
    case 0 => 0x01
    case 1 => 0x04
    case 2 => 0x02
    case 3 => 0x08
    case 4 => 0x10
    case 5 => 0x20
    case 6 => 0x40
    case _ => 0x80
  }

  type Flag = j: nat | j < 8

  // ---- Printing ----

  /** The printer names validity before its configuration. */
  function Printing(k: nat): Flag
    requires k < 8
  {
    if k == 1 then VALIDITY else if k == 2 then 1 else k
  }

  function FlagText(d: Bits, k: nat): string
    requires k < 8
  {
    if d & BitOf(Printing(k)) != 0 then Name(Printing(k)) else ""
  }

  /** The line after the first `k` flags were considered. */
  function Printed(d: Bits, k: nat): string
    requires k <= 8
  {
    if k == 0 then "  Digital:" else Printed(d, k - 1) + FlagText(d, k - 1)
  }

  method Show(before: string, digi1: Bits, ghost k: nat, bit: Bits, name: string) returns (buffer: string)
    requires k < 8 && bit == BitOf(Printing(k)) && name == Name(Printing(k)) && before == Printed(digi1, k)
    ensures buffer == Printed(digi1, k + 1)
  {
    buffer := before;
    if digi1 & bit != 0 {
      buffer := buffer + name;
    }
    assert before + "" == before;
  }

  method PrintDigitalConv(digi1: Bits) returns (buffer: string)
    ensures buffer == Printed(digi1, 8) + "\n"
  {
    buffer := "  Digital:";
    buffer := Show(buffer, digi1, 0, 0x01, " Enabled");
    buffer := Show(buffer, digi1, 1, 0x02, " Validity");
    buffer := Show(buffer, digi1, 2, 0x04, " ValidityCfg");
    buffer := Show(buffer, digi1, 3, 0x08, " Preemphasis");
    buffer := Show(buffer, digi1, 4, 0x10, " Copyright");
    buffer := Show(buffer, digi1, 5, 0x20, " Non-Audio");
    buffer := Show(buffer, digi1, 6, 0x40, " Pro");
    buffer := Show(buffer, digi1, 7, 0x80, " GenLevel");
    buffer := buffer + "\n";
  }

  // ---- Parsing ----

  /** The bits of the first name from `k` on that `s` starts with, and the text behind it. */
  function FirstMatch(s: string, k: nat): (r: Option<(Bits, string)>)
    requires k <= 8
    ensures r.Some? ==> |r.value.1| < |s|
    decreases 8 - k
  {
    if k == 8 then None
    else if Name(k) <= s then Some((BitOf(k), s[|Name(k)|..]))
    else FirstMatch(s, k + 1)
  }

  function ReadName(s: string): (r: Option<(Bits, string)>)
    ensures r.Some? ==> |r.value.1| < |s|
  {
    FirstMatch(s, 0)
  }

  /** Or-ing in what `read` finds, until it finds nothing. */
  function Repeat(read: string -> Option<(Bits, string)>, s: string, bits: Bits): (r: (Bits, string))
    requires forall t :: read(t).Some? ==> |read(t).value.1| < |t|
    ensures |r.1| <= |s| && (read(s).Some? ==> |r.1| < |s|)
    decreases |s|
  {
    match read(s)
    case None => (bits, s)
    case Some((b, rest)) => Repeat(read, rest, bits | b)
  }

  method ParseNodeDigital(buf: string, digConv: Bits) returns (bits: Bits)
    ensures bits == Repeat(ReadName, buf, digConv).0
  {
    bits := digConv;
    var p := buf;
    while true
      invariant Repeat(ReadName, buf, digConv) == Repeat(ReadName, p, bits)
      decreases |p|
    {
      var k := 0;
      while k < 8 && !(Name(k) <= p)
        invariant 0 <= k <= 8 && FirstMatch(p, 0) == FirstMatch(p, k)
      {
        k := k + 1;
      }
      if k == 8 {
        return;
      }
      bits := bits | BitOf(k);
      p := p[|Name(k)|..];
    }
  }

  // ---- What a sequence of names means ----

  function Names(js: seq<Flag>): string {
    if js == [] then "" else Name(js[0]) + Names(js[1..])
  }

  function OrAll(js: seq<Flag>): Bits {
    if js == [] then 0 else BitOf(js[0]) | OrAll(js[1..])
  }

  function OrInto(bits: Bits, js: seq<Flag>): Bits
    decreases |js|
  {
    if js == [] then bits else OrInto(bits | BitOf(js[0]), js[1..])
  }

  lemma {:induction false} OrIntoAll(bits: Bits, js: seq<Flag>)
    ensures OrInto(bits, js) == bits | OrAll(js)
    decreases |js|
  {
    if js != [] {
      OrIntoAll(bits | BitOf(js[0]), js[1..]);
      OrAssoc(bits, BitOf(js[0]), OrAll(js[1..]));
    }
  }

  /** The configuration name begins with the validity name: with this text behind, validity is
    * taken for its configuration.
    */
  predicate Confused(js: seq<Flag>, tail: string) {
    js != [] && js[|js| - 1] == VALIDITY && CFG <= tail
  }

  lemma Differ(name: string, s: string, i: nat)
    requires i < |name| && i < |s| && name[i] != s[i]
    ensures !(name <= s)
  {
  }

  /** Where two names first differ, if neither starts the other. */
  function FirstDifference(j: Flag, k: Flag): nat {
    if j == 3 || k == 3 then (if j == 6 || k == 6 then 3 else 1) else 1
  }

  lemma NamesDiffer(k: Flag, j: Flag, rest: string)
    requires k < j && !(k == 1 && j == VALIDITY)
    ensures !(Name(k) <= Name(j) + rest)
  {
    Differ(Name(k), Name(j) + rest, FirstDifference(j, k));
  }

  lemma ConfusedExactly(rest: string)
    ensures Name(1) <= Name(VALIDITY) + rest <==> CFG <= rest
  {
    assert Name(1) == Name(VALIDITY) + CFG;
    SamePrefix(Name(VALIDITY), CFG, rest);
  }

  lemma {:induction false} MatchReaches(s: string, k: nat, j: Flag)
    requires k <= j && Name(j) <= s
    requires forall i: Flag :: k <= i < j ==> !(Name(i) <= s)
    ensures FirstMatch(s, k) == Some((BitOf(j), s[|Name(j)|..]))
    decreases j - k
  {
    if k < j {
      MatchReaches(s, k + 1, j);
    }
  }

  /** A name is read as itself, whatever follows, except for the confusion above. */
  lemma NameIsRead(j: Flag, rest: string)
    requires !(j == VALIDITY && CFG <= rest)
    ensures ReadName(Name(j) + rest) == Some((BitOf(j), rest))
  {
    forall i: Flag | i < j
      ensures !(Name(i) <= Name(j) + rest)
    {
      if i == 1 && j == VALIDITY {
        ConfusedExactly(rest);
      } else {
        NamesDiffer(i, j, rest);
      }
    }
    assert (Name(j) + rest)[|Name(j)|..] == rest;
    MatchReaches(Name(j) + rest, 0, j);
  }

  lemma ConfusedRead(rest: string)
    requires CFG <= rest
    ensures ReadName(Name(VALIDITY) + rest) == Some((BitOf(1), rest[3..]))
  {
    var s := Name(VALIDITY) + rest;
    ConfusedExactly(rest);
    NamesDiffer(0, VALIDITY, rest);
    assert s[|Name(1)|..] == rest[3..];
    MatchReaches(s, 0, 1);
  }

  lemma OrAssoc(a: Bits, b: Bits, c: Bits)
    ensures (a | b) | c == a | (b | c)
  {
  }

  lemma HeadIsClear(js: seq<Flag>, tail: string)
    requires js != [] && !Confused(js, tail)
    ensures !(js[0] == VALIDITY && CFG <= Names(js[1..]) + tail)
    ensures !Confused(js[1..], tail)
  {
    if |js| > 1 {
      assert (Names(js[1..]) + tail)[0] == ' ';
    } else {
      assert Names(js[1..]) + tail == tail;
    }
  }

  /** If every text is one name and the next text, repetition goes from the first text to the last. */
  lemma {:induction false} RepeatThrough(read: string -> Option<(Bits, string)>, texts: seq<string>, js: seq<Flag>,
                                         k: nat, bits: Bits)
    requires forall t :: read(t).Some? ==> |read(t).value.1| < |t|
    requires k <= |js| && |texts| == |js| + 1
    requires forall i :: 0 <= i < |js| ==> read(texts[i]) == Some((BitOf(js[i]), texts[i+1]))
    ensures Repeat(read, texts[k], bits) == Repeat(read, texts[|js|], OrInto(bits, js[k..]))
    decreases |js| - k
  {
    if k < |js| {
      assert read(texts[k]) == Some((BitOf(js[k]), texts[k+1]));
      RepeatThrough(read, texts, js, k + 1, bits | BitOf(js[k]));
      assert js[k..][1..] == js[k+1..];
    }
  }

  lemma NameIsReadAt(js: seq<Flag>, tail: string, i: nat)
    requires i < |js| && !Confused(js, tail)
    ensures ReadName(Names(js[i..]) + tail) == Some((BitOf(js[i]), Names(js[i+1..]) + tail))
  {
    var here := js[i..];
    assert here[1..] == js[i+1..] && here[|here| - 1] == js[|js| - 1];
    HeadIsClear(here, tail);
    NameIsRead(js[i], Names(js[i+1..]) + tail);
    assert Names(here) + tail == Name(js[i]) + (Names(js[i+1..]) + tail);
  }

  /** Reading names that are not confused with what follows goes on at the tail with all their bits. */
  lemma AllNamesRead(js: seq<Flag>, tail: string, bits: Bits)
    requires !Confused(js, tail)
    ensures Repeat(ReadName, Names(js) + tail, bits) == Repeat(ReadName, tail, bits | OrAll(js))
  {
    var texts := seq(|js| + 1, i requires 0 <= i <= |js| => Names(js[i..]) + tail);
    forall i | 0 <= i < |js|
      ensures ReadName(texts[i]) == Some((BitOf(js[i]), texts[i+1]))
    {
      NameIsReadAt(js, tail, i);
    }
    RepeatThrough(ReadName, texts, js, 0, bits);
    OrIntoAll(bits, js);
    assert js[0..] == js && texts[|js|] == tail;
  }

  /** A sequence of names is read to its end, yielding the or of its bits, exactly when its tail
    * starts with no name and is not what makes a last validity look like its configuration.
    */
  lemma NamesReadExactly(js: seq<Flag>, tail: string, bits: Bits)
    ensures Repeat(ReadName, Names(js) + tail, bits).1 == tail <==> ReadName(tail).None? && !Confused(js, tail)
    ensures ReadName(tail).None? && !Confused(js, tail) ==>
      Repeat(ReadName, Names(js) + tail, bits) == (bits | OrAll(js), tail)
  {
    if !Confused(js, tail) {
      AllNamesRead(js, tail, bits);
      StopsExactly(tail, bits | OrAll(js));
    } else {
      LastConfused(js, tail, bits);
    }
  }

  /** Reading stays at a text exactly if that starts with no name. */
  lemma StopsExactly(tail: string, bits: Bits)
    ensures Repeat(ReadName, tail, bits).1 == tail <==> ReadName(tail).None?
    ensures ReadName(tail).None? ==> Repeat(ReadName, tail, bits) == (bits, tail)
  {
  }

  /** A confused name is read with some of the tail. */
  lemma LastConfused(js: seq<Flag>, tail: string, bits: Bits)
    requires Confused(js, tail)
    ensures Repeat(ReadName, Names(js) + tail, bits).1 != tail
  {
    var front := js[..|js| - 1];
    var last := Name(VALIDITY) + tail;
    NamesSnoc(front, VALIDITY);
    assert js == front + [VALIDITY];
    Associative(Names(front), Name(VALIDITY), tail);
    assert last[0] == ' ';
    AllNamesRead(front, last, bits);
    ConfusedRead(tail);
    ReadOn(last, tail[3..], bits | OrAll(front));
  }

  /** Reading never goes back. */
  lemma ReadOn(s: string, rest: string, bits: Bits)
    requires ReadName(s) == Some((BitOf(1), rest))
    ensures |Repeat(ReadName, s, bits).1| <= |rest|
  {
  }

  lemma {:induction false} NamesSnoc(js: seq<Flag>, j: Flag)
    ensures Names(js + [j]) == Names(js) + Name(j)
    ensures OrAll(js + [j]) == OrAll(js) | BitOf(j)
    decreases |js|
  {
    if js == [] {
      assert Names([j]) == Name(j) + Names([]) && Name(j) + "" == Name(j);
    } else {
      assert (js + [j])[1..] == js[1..] + [j];
      NamesSnoc(js[1..], j);
      assert Name(js[0]) + (Names(js[1..]) + Name(j)) == (Name(js[0]) + Names(js[1..])) + Name(j);
      OrAssoc(BitOf(js[0]), OrAll(js[1..]), BitOf(j));
    }
  }

  // ---- The parser undoes the printer ----

  /** The flags that the printer shows, in its order. */
  function Shown(d: Bits, k: nat): seq<Flag>
    requires k <= 8
  {
    if k == 0 then []
    else if d & BitOf(Printing(k - 1)) != 0 then Shown(d, k - 1) + [Printing(k - 1)]
    else Shown(d, k - 1)
  }

  lemma ShownNames(d: Bits, k: nat)
    requires k < 8
    ensures Names(Shown(d, k + 1)) == Names(Shown(d, k)) + FlagText(d, k)
    ensures OrAll(Shown(d, k + 1)) == OrAll(Shown(d, k)) | (d & BitOf(Printing(k)))
  {
    NamesSnoc(Shown(d, k), Printing(k));
    OneBit(d, Printing(k));
    assert Names(Shown(d, k)) + "" == Names(Shown(d, k));
  }

  lemma {:induction false} PrintedNames(d: Bits, k: nat)
    requires k <= 8
    ensures Printed(d, k) == "  Digital:" + Names(Shown(d, k))
  {
    if k == 0 {
      assert "  Digital:" + "" == "  Digital:";
    } else {
      PrintedNames(d, k - 1);
      ShownNames(d, k - 1);
      Associative("  Digital:", Names(Shown(d, k - 1)), FlagText(d, k - 1));
    }
  }

  lemma {:induction false} PrintedLength(d: Bits, k: nat)
    requires k <= 8
    ensures |Printed(d, k)| <= 10 + 12 * k
  {
    if k > 0 {
      PrintedLength(d, k - 1);
    }
  }

  /** The bits of the first `k` flags that are printed. */
  function Mask(k: nat): Bits
    requires k <= 8
  {
    if k == 0 then 0 else Mask(k - 1) | BitOf(Printing(k - 1))
  }

  lemma {:induction false} ShownBits(d: Bits, k: nat)
    requires k <= 8
    ensures OrAll(Shown(d, k)) == d & Mask(k)
  {
    if k > 0 {
      ShownBits(d, k - 1);
      ShownNames(d, k - 1);
      Distribute(d, Mask(k - 1), BitOf(Printing(k - 1)));
    }
  }

  lemma Distribute(d: Bits, mask: Bits, bit: Bits)
    ensures d & (mask | bit) == (d & mask) | (d & bit)
  {
  }

  lemma OneBit(d: Bits, j: Flag)
    ensures d & BitOf(j) == if d & BitOf(j) != 0 then BitOf(j) else 0
  {
  }

  /** Whatever the eight bits, printing and parsing gives them back, or-ed into those that were set. */
  lemma DigitalRoundTrip(d: Bits, bits: Bits)
    ensures var line := Printed(d, 8) + "\n";
      "  Digital:" <= line && Repeat(ReadName, line[|"  Digital:"|..], bits) == (bits | d, "\n")
  {
    PrintedNames(d, 8);
    ShownBits(d, 8);
    var js := Shown(d, 8);
    var line := Printed(d, 8) + "\n";
    assert line == "  Digital:" + (Names(js) + "\n");
    assert line[|"  Digital:"|..] == Names(js) + "\n";
    NamesReadExactly(js, "\n", bits);
    assert d & 0xff == d;
  }

  const HEADING := "  Digital:"

  /** The line of each single flag. */
  lemma FlagsPlainly()
    ensures Printed(0x01, 8) == "  Digital:" + " Enabled"
    ensures Printed(0x02, 8) == "  Digital:" + " Validity"
    ensures Printed(0x04, 8) == "  Digital:" + " ValidityCfg"
    ensures Printed(0x08, 8) == "  Digital:" + " Preemphasis"
    ensures Printed(0x10, 8) == "  Digital:" + " Copyright"
    ensures Printed(0x20, 8) == "  Digital:" + " Non-Audio"
    ensures Printed(0x40, 8) == "  Digital:" + " Pro"
    ensures Printed(0x80, 8) == "  Digital:" + " GenLevel"
  {
    OneFlag(0, 0x01, " Enabled");
    OneFlag(1, 0x02, " Validity");
    OneFlag(2, 0x04, " ValidityCfg");
    OneFlag(3, 0x08, " Preemphasis");
    OneFlag(4, 0x10, " Copyright");
    OneFlag(5, 0x20, " Non-Audio");
    OneFlag(6, 0x40, " Pro");
    OneFlag(7, 0x80, " GenLevel");
  }

  lemma OneFlag(k: Flag, d: Bits, name: string)
    requires d == BitOf(Printing(k)) && name == Name(Printing(k))
    ensures Printed(d, 8) == "  Digital:" + name
  {
    SinglePrinted(k, 8);
  }

  lemma {:induction false} SinglePrinted(k: Flag, n: nat)
    requires n <= 8
    ensures Printed(BitOf(Printing(k)), n) == "  Digital:" + (if k < n then Name(Printing(k)) else "")
  {
    if n > 0 {
      SinglePrinted(k, n - 1);
      ShownAlone(k, n - 1);
    }
  }

  lemma ShownAlone(k: Flag, j: Flag)
    ensures FlagText(BitOf(Printing(k)), j) == (if j == k then Name(Printing(k)) else "")
  {
  }

  /** The line behind its heading. */
  lemma FlagsBehind(d: Bits, bits: Bits) returns (names: string)
    ensures Printed(d, 8) + "\n" == HEADING + names && |HEADING| + |names| <= 120
    ensures Repeat(ReadName, names, bits).0 == bits | d
  {
    var line := Printed(d, 8) + "\n";
    PrintedLength(d, 8);
    DigitalRoundTrip(d, bits);
    names := line[|HEADING|..];
    assert line == HEADING + names;
  }
}
