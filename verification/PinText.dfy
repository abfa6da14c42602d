/** The lines of a pin in a codec's proc file, the line that opens a widget, and the numbers in them. */
module PinText {
  import opened Options
  import opened HdaCodec
  import opened Text
  import opened Sequences
  import AmpText

  // ---- Pin controls ----

  const CTL_IN: nat := 0x20
  const CTL_OUT: nat := 0x40
  const CTL_HP: nat := 0x80

  const CAP_HP: nat := 0x8
  const CAP_OUT: nat := 0x10
  const CAP_IN: nat := 0x20

  /** A machine word. */
  type Word = w: nat | w < 0x1_0000_0000

  function Clear(w: nat, weight: nat): nat
    requires weight > 0
  {
    if Bit(w, weight) then w - weight else w
  }

  /** The capability that a reference voltage asks for; unknown ones ask for none. */
  function VrefCap(vref: nat): Option<nat> {
    if vref == 0 then Some(0x100)
    else if vref == 1 then Some(0x200)
    else if vref == 2 then Some(0x400)
    else if vref == 4 then Some(0x1000)
    else if vref == 5 then Some(0x2000)
    else None
  }

  /** A pin without any reference voltage has the high-impedance one. */
  predicate NoVref(cap: nat) {
    !Bit(cap, 0x100) && !Bit(cap, 0x200) && !Bit(cap, 0x400) && !Bit(cap, 0x1000) && !Bit(cap, 0x2000)
  }

  predicate HasVref(cap: nat, vref: nat) {
    match VrefCap(vref)
    case None => true
    case Some(weight) => if NoVref(cap) then weight == 0x100 else Bit(cap, weight)
  }

  /** The control without the enables that the capabilities lack; each test looks at the whole of it. */
  function Verified(cap: nat, ctl: nat): nat {
    var c1 := if !Bit(cap, CAP_OUT) then Clear(ctl, CTL_OUT) else ctl;
    var c2 := if !Bit(cap, CAP_HP) then Clear(c1, CTL_HP) else c1;
    var c3 := if !Bit(cap, CAP_IN) then Clear(c2, CTL_IN) else c2;
    if Bit(ctl, CTL_IN) && !HasVref(cap, ctl % 8) then c3 - c3 % 8 else c3
  }

  /** A control that asks for nothing the pin cannot do. */
  predicate Allowed(cap: nat, ctl: nat) {
    && (Bit(ctl, CTL_OUT) ==> Bit(cap, CAP_OUT))
    && (Bit(ctl, CTL_HP) ==> Bit(cap, CAP_HP))
    && (Bit(ctl, CTL_IN) ==> Bit(cap, CAP_IN) && (HasVref(cap, ctl % 8) || ctl % 8 == 0))
  }

  lemma ClearLess(w: nat, weight: nat)
    requires weight > 0
    ensures Clear(w, weight) <= w && (Clear(w, weight) == w <==> !Bit(w, weight))
  {
  }

  /** Exactly such controls are left as they are. */
  lemma VerifiedExactly(cap: nat, ctl: nat)
    ensures Verified(cap, ctl) == ctl <==> Allowed(cap, ctl)
  {
    var c1 := if !Bit(cap, CAP_OUT) then Clear(ctl, CTL_OUT) else ctl;
    var c2 := if !Bit(cap, CAP_HP) then Clear(c1, CTL_HP) else c1;
    var c3 := if !Bit(cap, CAP_IN) then Clear(c2, CTL_IN) else c2;
    ClearLess(ctl, CTL_OUT);
    ClearLess(c1, CTL_HP);
    ClearLess(c2, CTL_IN);
  }

  // ---- Pin capabilities ----

  /** Where the first colon is. */
  function ColonAt(s: string): (r: Option<nat>)
    ensures r.Some? ==> r.value < |s| && s[r.value] == ':'
  {
    if s == [] then None
    else if s[0] == ':' then Some(0)
    else match ColonAt(s[1..]) case None => None case Some(k) => Some(k + 1)
  }

  /** An old printer wrote a stray "0x08" in front of the digits; then the colon comes late or early. */
  function PinCapOf(p: string): nat {
    if "0x08" <= p && ColonAt(p).Some? && ColonAt(p).value != 10
    then ToUnsigned(ReadDigits(SkipSpaces(p[4..]), Hex, 0).0)
    else ToUnsigned(Strtoul(p).0)
  }

  lemma {:induction false} ColonBehind(a: string, rest: string)
    requires ':' !in a
    ensures ColonAt(a + (":" + rest)) == Some(|a|)
  {
    var s := a + (":" + rest);
    if a != [] {
      assert s[0] == a[0] && s[1..] == a[1..] + (":" + rest);
      ColonBehind(a[1..], rest);
    } else {
      assert s[0] == ':';
    }
  }

  lemma Hex8Shape(n: Word)
    ensures |Hex8(n)| == 8 && ':' !in Hex8(n)
  {
    assert Pow16(4) == 0x1_0000 && Pow16(8) == 0x1_0000 * Pow16(4);
    DigitsFit(n, 8);
    DigitsOnly(n, ':');
  }

  lemma Hex2Fits(n: Word)
    ensures |Hex2(n)| <= 8
  {
    assert Pow16(4) == 0x1_0000 && Pow16(8) == 0x1_0000 * Pow16(4);
    DigitsFit(n, 8);
  }

  /** What is printed today is never taken for that. */
  lemma PinCapRoundTrip(cap: Word, text: string)
    ensures PinCapOf("0x" + Hex8(cap) + (":" + text)) == cap
  {
    Hex8Shape(cap);
    ColonBehind("0x" + Hex8(cap), text);
    StrtoulHex8(cap, ":" + text);
  }

  // ---- The line that opens a widget ----

  /** The text from the first occurrence of `t` on. */
  function FindText(s: string, t: string): (r: Option<string>)
    ensures r.Some? ==> t <= r.value
    decreases |s|
  {
    if t <= s then Some(s) else if s == [] then None else FindText(s[1..], t)
  }

  const NODE := "Node 0x"
  const WCAPS := "wcaps "

  /** The NID and the capabilities of a widget; `None` stops the parser. */
  function NodeRead(line: string): Option<(Byte, nat)> {
    if !(NODE <= line) then None
    else
      match AmpText.ScanByte(line[|NODE|..])
      case None => None
      case Some((nid, _)) =>
        match FindText(line, WCAPS)
        case None => None
        case Some(p) =>
          if !("wcaps 0x" <= p) || !StartsWithDigit(p[8..], Hex) then None
          else Some((nid, ToUnsigned(ReadDigits(p[8..], Hex, 0).0)))
  }

  function TypeName(widType: nat): string {
    if widType == 0 then "Audio Output" else if widType == 1 then "Audio Input"
    else if widType == 2 then "Audio Mixer" else if widType == 3 then "Audio Selector"
    else if widType == 4 then "Pin Complex" else if widType == 5 then "Power Widget"
    else if widType == 6 then "Volume Knob Widget" else if widType == 7 then "Beep Generator Widget"
    else if widType == 15 then "Vendor Defined Widget" else "UNKNOWN Widget"
  }

  /** What comes before the capabilities, and the whole line. */
  function NodeStart(nid: nat, name: string): string {
    NODE + (Hex2(nid) + (" [" + (name + "] ")))
  }

  function NodeLine(nid: nat, wcaps: nat, text: string): string {
    NodeStart(nid, TypeName(wcaps / 0x10_0000 % 16)) + ("wcaps 0x" + (Digits(wcaps, Hex) + (":" + text)))
  }

  /** A text in which no capabilities can be found: no w has a c behind it, and none is last. */
  predicate Quiet(a: string) {
    forall i :: 0 <= i < |a| && a[i] == 'w' ==> i + 1 < |a| && a[i+1] != 'c'
  }

  lemma QuietJoined(a: string, b: string)
    requires Quiet(a) && Quiet(b)
    ensures Quiet(a + b)
  {
  }

  lemma QuietNames(widType: nat)
    ensures Quiet(TypeName(widType))
  {
    if widType < 4 {
      QuietLowNames(widType);
    } else if widType < 7 {
      QuietMiddleNames(widType);
    } else if widType == 7 || widType == 15 {
      QuietHighNames(widType);
    }
  }

  lemma QuietLowNames(widType: nat)
    requires widType < 4
    ensures Quiet(TypeName(widType))
  {
  }

  lemma QuietMiddleNames(widType: nat)
    requires 4 <= widType < 7
    ensures Quiet(TypeName(widType))
  {
  }

  lemma QuietHighNames(widType: nat)
    requires widType == 7 || widType == 15
    ensures Quiet(TypeName(widType))
  {
  }

  lemma QuietMarks()
    ensures Quiet(NODE) && Quiet(" [") && Quiet("] ")
  {
  }

  lemma QuietHex(n: nat)
    ensures Quiet(Hex2(n))
  {
    DigitsOnly(n, 'w');
    assert 'w' !in Hex2(n);
  }

  lemma QuietStart(nid: nat, widType: nat)
    ensures Quiet(NodeStart(nid, TypeName(widType)))
  {
    var name := TypeName(widType);
    QuietNames(widType);
    QuietMarks();
    QuietHex(nid);
    QuietJoined(name, "] ");
    QuietJoined(" [", name + "] ");
    QuietJoined(Hex2(nid), " [" + (name + "] "));
    QuietJoined(NODE, Hex2(nid) + (" [" + (name + "] ")));
  }

  lemma {:induction false} FoundBehind(a: string, later: string)
    requires Quiet(a) && WCAPS <= later
    ensures FindText(a + later, WCAPS) == Some(later)
    decreases |a|
  {
    if a == [] {
      assert a + later == later;
    } else {
      assert (a + later)[0] == a[0] && (a + later)[1..] == a[1..] + later;
      if a[0] == 'w' {
        assert (a + later)[1] == a[1] != 'c' == WCAPS[1];
      }
      assert !(WCAPS <= a + later);
      assert forall i :: 0 <= i < |a| - 1 ==> a[1..][i] == a[i+1];
      FoundBehind(a[1..], later);
    }
  }

  lemma NidScanned(nid: Byte, later: string)
    requires !StartsWithDigit(later, Hex)
    ensures var line := NODE + (Hex2(nid) + later);
      NODE <= line && AmpText.ScanByte(line[|NODE|..]) == Some((nid, later))
  {
    assert (NODE + (Hex2(nid) + later))[|NODE|..] == Hex2(nid) + later;
    AmpText.ScanPrinted(nid, later);
  }

  lemma CapsScanned(wcaps: Word, text: string)
    ensures var p := "wcaps 0x" + (Digits(wcaps, Hex) + (":" + text));
      && "wcaps 0x" <= p && WCAPS <= p && StartsWithDigit(p[8..], Hex)
      && ToUnsigned(ReadDigits(p[8..], Hex, 0).0) == wcaps
  {
    var digits := Digits(wcaps, Hex);
    var p := "wcaps 0x" + (digits + (":" + text));
    assert p[8..] == digits + (":" + text);
    DigitsStart(wcaps, Hex);
    ReadPrinted(wcaps, Hex, ":" + text);
    assert (digits + (":" + text))[0] == digits[0];
  }

  lemma NodeReadAs(line: string, nid: Byte, behind: string, p: string, wcaps: nat)
    requires NODE <= line && AmpText.ScanByte(line[|NODE|..]) == Some((nid, behind))
    requires FindText(line, WCAPS) == Some(p) && "wcaps 0x" <= p && StartsWithDigit(p[8..], Hex)
    requires ToUnsigned(ReadDigits(p[8..], Hex, 0).0) == wcaps
    ensures NodeRead(line) == Some((nid, wcaps))
  {
  }

  lemma NodeRegrouped(node: string, hex: string, middle: string, later: string)
    ensures (node + (hex + middle)) + later == node + (hex + (middle + later))
  {
    Associative(node, hex + middle, later);
    Associative(hex, middle, later);
  }

  /** The parser gets the NID and the capabilities of every widget. */
  lemma NodeRoundTrip(nid: Byte, wcaps: Word, text: string)
    ensures NodeRead(NodeLine(nid, wcaps, text)) == Some((nid, wcaps))
  {
    var name := TypeName(wcaps / 0x10_0000 % 16);
    var later := "wcaps 0x" + (Digits(wcaps, Hex) + (":" + text));
    var middle := " [" + (name + "] ");
    CapsScanned(wcaps, text);
    QuietStart(nid, wcaps / 0x10_0000 % 16);
    FoundBehind(NodeStart(nid, name), later);
    NidScanned(nid, middle + later);
    NodeRegrouped(NODE, Hex2(nid), middle, later);
    NodeReadAs(NodeLine(nid, wcaps, text), nid, middle + later, later, wcaps);
  }

  // ---- The rest of the pin lines ----

  /** The bits of a checked control: an enable stays where the capabilities have it, the reference
    * voltage unless the input is enabled and the pin lacks it, and all other bits.
    */
  lemma VerifiedBits(cap: nat, high: nat, hp: bool, outp: bool, inp: bool, mid: nat, vref: nat)
    requires mid < 4 && vref < 8
    ensures var lacking := inp && match vref
        case 0 => cap / 0x100 % 2 == 0 && (cap / 0x200 % 2 == 1 || cap / 0x400 % 2 == 1
                                           || cap / 0x1000 % 2 == 1 || cap / 0x2000 % 2 == 1)
        case 1 => cap / 0x200 % 2 == 0
        case 2 => cap / 0x400 % 2 == 0
        case 4 => cap / 0x1000 % 2 == 0
        case 5 => cap / 0x2000 % 2 == 0
        case _ => false;
      Verified(cap, Control(high, hp, outp, inp, mid, vref))
        == Control(high, hp && cap / 0x8 % 2 == 1, outp && cap / 0x10 % 2 == 1, inp && cap / 0x20 % 2 == 1,
                   mid, if lacking then 0 else vref)
  {
    var ctl := Control(high, hp, outp, inp, mid, vref);
    ControlFields(high, hp, outp, inp, mid, vref);
    var c1 := Control(high, hp, outp && Bit(cap, CAP_OUT), inp, mid, vref);
    var c2 := Control(high, hp && Bit(cap, CAP_HP), outp && Bit(cap, CAP_OUT), inp, mid, vref);
    var c3 := Control(high, hp && Bit(cap, CAP_HP), outp && Bit(cap, CAP_OUT), inp && Bit(cap, CAP_IN), mid, vref);
    ControlFields(high, hp, outp && Bit(cap, CAP_OUT), inp, mid, vref);
    ControlFields(high, hp && Bit(cap, CAP_HP), outp && Bit(cap, CAP_OUT), inp, mid, vref);
    ControlFields(high, hp && Bit(cap, CAP_HP), outp && Bit(cap, CAP_OUT), inp && Bit(cap, CAP_IN), mid, vref);
  }

  /** A pin control put together from its fields. */
  function Control(high: nat, hp: bool, outp: bool, inp: bool, mid: nat, vref: nat): nat {
    0x100 * high + (if hp then 0x80 else 0) + (if outp then 0x40 else 0) + (if inp then 0x20 else 0) + 8 * mid + vref
  }

  lemma LowField(q: nat, low: nat)
    requires low < 8
    ensures (8 * q + low) % 8 == low
  {
  }

  lemma Field80(q: nat, on: bool, low: nat)
    requires low < 0x80
    ensures Bit(0x80 * (2 * q) + (if on then 0x80 else 0) + low, 0x80) == on
  {
    assert (0x80 * (2 * q) + (if on then 0x80 else 0) + low) / 0x80 == 2 * q + if on then 1 else 0;
  }

  lemma Field40(q: nat, on: bool, low: nat)
    requires low < 0x40
    ensures Bit(0x40 * (2 * q) + (if on then 0x40 else 0) + low, 0x40) == on
  {
    assert (0x40 * (2 * q) + (if on then 0x40 else 0) + low) / 0x40 == 2 * q + if on then 1 else 0;
  }

  lemma Field20(q: nat, on: bool, low: nat)
    requires low < 0x20
    ensures Bit(0x20 * (2 * q) + (if on then 0x20 else 0) + low, 0x20) == on
  {
    assert (0x20 * (2 * q) + (if on then 0x20 else 0) + low) / 0x20 == 2 * q + if on then 1 else 0;
  }

  lemma ControlFields(high: nat, hp: bool, outp: bool, inp: bool, mid: nat, vref: nat)
    requires mid < 4 && vref < 8
    ensures var ctl := Control(high, hp, outp, inp, mid, vref);
      Bit(ctl, 0x80) == hp && Bit(ctl, 0x40) == outp && Bit(ctl, 0x20) == inp && ctl % 8 == vref
  {
    var ctl := Control(high, hp, outp, inp, mid, vref);
    var low := 8 * mid + vref;
    var i := low + if inp then 0x20 else 0;
    var o := i + if outp then 0x40 else 0;
    assert Bit(ctl, 0x20) == inp by {
      Field20(4 * high + (if hp then 2 else 0) + (if outp then 1 else 0), inp, low);
    }
    assert Bit(ctl, 0x40) == outp by {
      Field40(2 * high + (if hp then 1 else 0), outp, i);
    }
    assert Bit(ctl, 0x80) == hp by {
      Field80(high, hp, o);
    }
    LowField(0x20 * high + (if hp then 0x10 else 0) + (if outp then 8 else 0) + (if inp then 4 else 0) + mid, vref);
  }

  /** What the old printer wrote is read without its stray digits, exactly if there are not six digits
    * behind these; then they are taken for leading ones.
    */
  lemma OldPinCap(cap: nat, text: string)
    requires cap < 0x1_0000_0000
    ensures |Digits(cap, Hex)| != 6 ==> PinCapOf("0x08" + (Digits(cap, Hex) + (":" + text))) == cap
    ensures |Digits(cap, Hex)| == 6 ==>
      PinCapOf("0x08" + (Digits(cap, Hex) + (":" + text))) == (0x800_0000 + cap) % 0x1_0000_0000
  {
    var digits := Digits(cap, Hex);
    var rest := ":" + text;
    DigitsOnly(cap, ':');
    Associative("0x08", digits, rest);
    ColonBehind("0x08" + digits, text);
    if |digits| != 6 {
      OldTaken(digits, cap, rest);
    } else {
      OldSix(digits, cap, rest);
    }
  }

  lemma OldTaken(digits: string, cap: nat, rest: string)
    requires digits == Digits(cap, Hex) && cap < 0x1_0000_0000 && !StartsWithDigit(rest, Hex)
    requires ColonAt("0x08" + (digits + rest)).Some? && ColonAt("0x08" + (digits + rest)).value != 10
    ensures PinCapOf("0x08" + (digits + rest)) == cap
  {
    DigitsStart(cap, Hex);
    assert (digits + rest)[0] == digits[0];
    DigitSkipped(digits + rest);
    ReadPrinted(cap, Hex, rest);
    StrayCut("0x08", digits + rest);
  }

  lemma StrayCut(stray: string, s: string)
    requires stray == "0x08" && ColonAt(stray + s).Some? && ColonAt(stray + s).value != 10
    ensures PinCapOf(stray + s) == ToUnsigned(ReadDigits(SkipSpaces(s), Hex, 0).0)
  {
    assert stray <= stray + s && (stray + s)[4..] == s;
  }

  lemma DigitSkipped(s: string)
    requires StartsWithDigit(s, Hex)
    ensures SkipSpaces(s) == s
  {
  }

  lemma OldSix(digits: string, cap: nat, rest: string)
    requires digits == Digits(cap, Hex) && |digits| == 6 && cap < 0x1_0000_0000 && !StartsWithDigit(rest, Hex)
    requires ColonAt("0x08" + (digits + rest)) == Some(10)
    ensures PinCapOf("0x08" + (digits + rest)) == (0x800_0000 + cap) % 0x1_0000_0000
  {
    ReadOldSix(digits, cap, rest);
    StrtoulDigits("08" + digits, 0x800_0000 + cap, rest);
    assert "0x" + ("08" + digits) + rest == "0x08" + (digits + rest);
  }

  lemma ReadOldSix(digits: string, cap: nat, rest: string)
    requires digits == Digits(cap, Hex) && |digits| == 6 && !StartsWithDigit(rest, Hex)
    ensures StartsWithDigit(("08" + digits) + rest, Hex)
    ensures ReadDigits(("08" + digits) + rest, Hex, 0) == (0x800_0000 + cap, rest)
  {
    var behind := digits + rest;
    ReadAfter(cap, 8, rest);
    Sixteens();
    assert ("08" + digits) + rest == [DIGITS[0]] + ([DIGITS[8]] + behind);
    ReadOne(0, Hex, [DIGITS[8]] + behind, 0);
    ReadOne(8, Hex, behind, 0);
  }

  lemma Sixteens()
    ensures Shifted(8, 6) == 0x800_0000
  {
    assert Shifted(8, 3) == 0x8000;
    assert Shifted(8, 6) == 16 * Shifted(8, 5) == 0x100 * Shifted(8, 4) == 0x1000 * Shifted(8, 3);
  }
}
