/** Numbers as text: what the printers write with %d and %02x and what strtoul reads back. A
  * character pointer is the text from there to its end, and the end plays the part of the NUL.
  */
module Text {
  import opened Options

  predicate IsSpace(c: char) {
    c == ' ' || '\t' <= c <= '\r'
  }

  function SkipSpaces(s: string): (rest: string)
    ensures |rest| <= |s|
    ensures rest != [] ==> !IsSpace(rest[0])
  {
    if s != [] && IsSpace(s[0]) then SkipSpaces(s[1..]) else s
  }

  const DIGITS := "0123456789abcdef"

  /** The value of a digit; 16 for anything else. */
  function DigitValue(c: char): (v: nat)
    ensures v <= 16
  {
    if '0' <= c <= '9' then (c - '0') as nat
    else if 'a' <= c <= 'f' then (c - 'a') as nat + 10
    else if 'A' <= c <= 'F' then (c - 'A') as nat + 10
    else 16
  }

  datatype Base = Oct | Dec | Hex {
    function Size(): nat {
      match this case Oct => 8 case Dec => 10 case Hex => 16
    }

    /** `acc` with the digit `d` behind it. */
    function Join(acc: nat, d: nat): nat {
      match this case Oct => 8 * acc + d case Dec => 10 * acc + d case Hex => 16 * acc + d
    }

    /** All digits of `n` but the last, and the last one. */
    function Split(n: nat): (nat, nat) {
      match this case Oct => (n / 8, n % 8) case Dec => (n / 10, n % 10) case Hex => (n / 16, n % 16)
    }
  }

  predicate StartsWithDigit(s: string, base: Base) {
    s != [] && DigitValue(s[0]) < base.Size()
  }

  /** The shortest text of `n`. */
  function Digits(n: nat, base: Base): (t: string)
    ensures t != []
    decreases n
  {
    if n < base.Size() then [DIGITS[n]] else Digits(base.Split(n).0, base) + [DIGITS[base.Split(n).1]]
  }

  /** %d of a number that is not negative. */
  function Decimal(n: nat): string {
    Digits(n, Dec)
  }

  /** %02x */
  function Hex2(n: nat): string {
    if n < 16 then "0" + Digits(n, Hex) else Digits(n, Hex)
  }

  function ReadDigits(s: string, base: Base, acc: nat): (r: (nat, string))
    ensures |r.1| <= |s|
    decreases |s|
  {
    if StartsWithDigit(s, base) then ReadDigits(s[1..], base, base.Join(acc, DigitValue(s[0]))) else (acc, s)
  }

  /** strtoul with base 0: the value, and the text after it, which is the text itself when it starts
    * with no number. A sign is read and, as in the source's type, negates.
    */
  function Strtoul(s: string): (r: (int, string))
    ensures |r.1| <= |s|
  {
    var t := SkipSpaces(s);
    var negative := t != [] && t[0] == '-';
    var u := if t != [] && (t[0] == '-' || t[0] == '+') then t[1..] else t;
    if !StartsWithDigit(u, Dec) then (0, s)
    else
      var (v, rest) :=
        if u[0] == '0' && |u| > 2 && (u[1] == 'x' || u[1] == 'X') && StartsWithDigit(u[2..], Hex)
        then ReadDigits(u[2..], Hex, 0)
        else ReadDigits(u, if u[0] == '0' then Oct else Dec, 0);
      (if negative then -(v as int) else v, rest)
  }

  /** A value as it is stored in an unsigned int. */
  function ToUnsigned(v: int): nat {
    v % 0x1_0000_0000
  }

  // ---- Printing and reading back ----

  lemma DigitRoundTrip(d: nat)
    requires d < 16
    ensures DigitValue(DIGITS[d]) == d
  {
  }

  /** The last digit of a number that has several. */
  lemma LastDigit(n: nat, base: Base) returns (q: nat, d: nat)
    requires n >= base.Size()
    ensures q < n && d < base.Size() && base.Join(q, d) == n
    ensures Digits(n, base) == Digits(q, base) + [DIGITS[d]]
  {
    q, d := base.Split(n).0, base.Split(n).1;
  }

  lemma ReadOne(d: nat, base: Base, rest: string, acc: nat)
    requires d < base.Size()
    ensures ReadDigits([DIGITS[d]] + rest, base, acc) == ReadDigits(rest, base, base.Join(acc, d))
  {
    DigitRoundTrip(d);
    assert ([DIGITS[d]] + rest)[1..] == rest;
  }

  lemma ReadAnother(text: string, q: nat, d: nat, base: Base, rest: string)
    requires d < base.Size()
    requires ReadDigits(text + ([DIGITS[d]] + rest), base, 0) == ReadDigits([DIGITS[d]] + rest, base, q)
    ensures ReadDigits((text + [DIGITS[d]]) + rest, base, 0) == ReadDigits(rest, base, base.Join(q, d))
  {
    ReadOne(d, base, rest, q);
    assert (text + [DIGITS[d]]) + rest == text + ([DIGITS[d]] + rest);
  }

  /** Reading the digits of `n` leaves the reader where it would be with `n` in hand. */
  lemma {:induction false} ReadPrinted(n: nat, base: Base, rest: string)
    ensures ReadDigits(Digits(n, base) + rest, base, 0) == ReadDigits(rest, base, n)
    decreases n
  {
    if n < base.Size() {
      ReadOne(n, base, rest, 0);
    } else {
      var q, d := LastDigit(n, base);
      ReadPrinted(q, base, [DIGITS[d]] + rest);
      ReadAnother(Digits(q, base), q, d, base, rest);
    }
  }

  lemma {:induction false} DigitsStart(n: nat, base: Base)
    ensures StartsWithDigit(Digits(n, base), base)
    ensures n > 0 ==> Digits(n, base)[0] != '0'
    decreases n
  {
    if n < base.Size() {
      DigitRoundTrip(n);
    } else {
      var q, d := LastDigit(n, base);
      DigitsStart(q, base);
    }
  }

  lemma ReadHex2(n: nat, rest: string)
    requires !StartsWithDigit(rest, Hex)
    ensures StartsWithDigit(Hex2(n) + rest, Hex)
    ensures ReadDigits(Hex2(n) + rest, Hex, 0) == (n, rest)
  {
    DigitsStart(n, Hex);
    ReadPrinted(n, Hex, rest);
    assert (Hex2(n) + rest)[0] == Hex2(n)[0];
    if n < 16 {
      assert Hex2(n) + rest == [DIGITS[0]] + (Digits(n, Hex) + rest);
      ReadOne(0, Hex, Digits(n, Hex) + rest, 0);
    }
  }

  /** strtoul reads a printed hexadecimal number up to the first character that is no digit. */
  lemma StrtoulHex(n: nat, rest: string)
    requires !StartsWithDigit(rest, Hex)
    ensures Strtoul("0x" + Hex2(n) + rest) == (n, rest)
  {
    ReadHex2(n, rest);
    StrtoulDigits(Hex2(n), n, rest);
  }

  lemma StrtoulDigits(text: string, n: nat, rest: string)
    requires StartsWithDigit(text + rest, Hex) && ReadDigits(text + rest, Hex, 0) == (n, rest)
    ensures Strtoul("0x" + text + rest) == (n, rest)
  {
    var s := "0x" + text + rest;
    assert s[2..] == text + rest && s[0] == '0' && s[1] == 'x';
    assert SkipSpaces(s) == s;
  }

  function Zeros(k: nat): string {
    seq(k, _ => '0')
  }

  /** %08x of a machine word. */
  function Hex8(n: nat): string {
    var text := Digits(n, Hex);
    if |text| < 8 then Zeros(8 - |text|) + text else text
  }

  lemma {:induction false} ReadZeros(k: nat, s: string)
    ensures ReadDigits(Zeros(k) + s, Hex, 0) == ReadDigits(s, Hex, 0)
  {
    if k == 0 {
      assert Zeros(0) + s == s;
    } else {
      assert (Zeros(k) + s)[0] == '0' && (Zeros(k) + s)[1..] == Zeros(k - 1) + s;
      ReadZeros(k - 1, s);
    }
  }

  /** The same with leading zeroes. */
  lemma StrtoulHex8(n: nat, rest: string)
    requires !StartsWithDigit(rest, Hex)
    ensures Strtoul("0x" + Hex8(n) + rest) == (n, rest)
  {
    var text := Digits(n, Hex);
    if |text| < 8 {
      ReadPadded(8 - |text|, n, rest);
      StrtoulDigits(Hex8(n), n, rest);
    } else {
      ReadPadded(0, n, rest);
      assert Zeros(0) + text == text;
      StrtoulDigits(Hex8(n), n, rest);
    }
  }

  lemma ReadPadded(k: nat, n: nat, rest: string)
    requires !StartsWithDigit(rest, Hex)
    ensures var s := (Zeros(k) + Digits(n, Hex)) + rest;
      StartsWithDigit(s, Hex) && ReadDigits(s, Hex, 0) == (n, rest)
  {
    var text := Digits(n, Hex);
    DigitsStart(n, Hex);
    ReadPrinted(n, Hex, rest);
    ReadZeros(k, text + rest);
    assert (Zeros(k) + text) + rest == Zeros(k) + (text + rest);
    assert (Zeros(k) + (text + rest))[0] == if k == 0 then text[0] else '0';
  }

  function Pow16(k: nat): nat {
    if k == 0 then 1 else 16 * Pow16(k - 1)
  }

  lemma {:induction false} DigitsFit(n: nat, k: nat)
    requires k > 0 && n < Pow16(k)
    ensures |Digits(n, Hex)| <= k
    decreases k
  {
    if n >= 16 {
      var q, d := LastDigit(n, Hex);
      assert k > 1 && q < Pow16(k - 1);
      DigitsFit(q, k - 1);
    }
  }

  /** `acc` with `k` more hexadecimal digits behind it, all 0. */
  function Shifted(acc: nat, k: nat): nat {
    if k == 0 then acc else 16 * Shifted(acc, k - 1)
  }

  lemma {:induction false} ReadAfter(n: nat, acc: nat, rest: string)
    ensures ReadDigits(Digits(n, Hex) + rest, Hex, acc)
         == ReadDigits(rest, Hex, Shifted(acc, |Digits(n, Hex)|) + n)
    decreases n
  {
    if n < 16 {
      ReadSingle(n, acc, rest);
    } else {
      var q, d := LastDigit(n, Hex);
      ReadAfter(q, acc, [DIGITS[d]] + rest);
      var text, digits := Digits(q, Hex), Digits(n, Hex);
      assert n == 16 * q + d && digits == text + [DIGITS[d]];
      ReadBehind(text, q, d, acc, rest, n, digits);
    }
  }

  lemma ReadSingle(n: nat, acc: nat, rest: string)
    requires n < 16
    ensures ReadDigits(Digits(n, Hex) + rest, Hex, acc)
         == ReadDigits(rest, Hex, Shifted(acc, |Digits(n, Hex)|) + n)
  {
    assert Digits(n, Hex) == [DIGITS[n]];
    ReadOne(n, Hex, rest, acc);
    OneShift(acc);
  }

  lemma OneShift(acc: nat)
    ensures Shifted(acc, 1) == 16 * acc
  {
    assert Shifted(acc, 0) == acc;
  }

  lemma ReadBehind(text: string, q: nat, d: nat, acc: nat, rest: string, n: nat, digits: string)
    requires d < 16 && n == 16 * q + d && digits == text + [DIGITS[d]]
    requires ReadDigits(text + ([DIGITS[d]] + rest), Hex, acc)
          == ReadDigits([DIGITS[d]] + rest, Hex, Shifted(acc, |text|) + q)
    ensures ReadDigits(digits + rest, Hex, acc) == ReadDigits(rest, Hex, Shifted(acc, |digits|) + n)
  {
    ReadOne(d, Hex, rest, Shifted(acc, |text|) + q);
    assert digits + rest == text + ([DIGITS[d]] + rest);
  }

  /** No character of a number is anything but a digit. */
  lemma {:induction false} DigitsOnly(n: nat, c: char)
    requires DigitValue(c) == 16
    ensures c !in Digits(n, Hex)
    decreases n
  {
    if n < 16 {
      DigitRoundTrip(n);
    } else {
      var q, d := LastDigit(n, Hex);
      DigitsOnly(q, c);
      DigitRoundTrip(d);
    }
  }

  /** The same for a printed decimal number. */
  lemma StrtoulDecimal(n: nat, rest: string)
    requires !StartsWithDigit(rest, Dec) && (rest != [] ==> rest[0] != 'x' && rest[0] != 'X')
    ensures Strtoul(Decimal(n) + rest) == (n, rest)
  {
    var s := Decimal(n) + rest;
    DigitsStart(n, Dec);
    assert s[0] == Decimal(n)[0] && SkipSpaces(s) == s;
    if n == 0 {
      assert s == [DIGITS[0]] + rest;
      ReadOne(0, Oct, rest, 0);
    } else {
      ReadPrinted(n, Dec, rest);
    }
  }

  /** A space in front of a number does not count, and a sign does. */
  lemma StrtoulSigned(n: nat, rest: string)
    requires !StartsWithDigit(rest, Dec) && (rest != [] ==> rest[0] != 'x' && rest[0] != 'X')
    ensures Strtoul(" " + (Decimal(n) + rest)) == (n, rest)
    ensures Strtoul("+" + (Decimal(n) + rest)) == (n, rest)
    ensures Strtoul("-" + (Decimal(n) + rest)) == (-(n as int), rest)
  {
    StrtoulDecimal(n, rest);
    DigitsStart(n, Dec);
    assert (Decimal(n) + rest)[0] == Decimal(n)[0];
    SignedText(Decimal(n) + rest, n, rest);
  }

  lemma SignedText(s: string, n: nat, rest: string)
    requires StartsWithDigit(s, Dec) && Strtoul(s) == (n, rest)
    ensures Strtoul(" " + s) == (n, rest)
    ensures Strtoul("+" + s) == (n, rest)
    ensures Strtoul("-" + s) == (-(n as int), rest)
  {
    assert SkipSpaces(s) == s;
    assert (" " + s)[1..] == s && ("+" + s)[1..] == s && ("-" + s)[1..] == s;
    assert SkipSpaces(" " + s) == s;
  }

  /** The text of a byte has two digits. */
  lemma ByteText(b: nat)
    requires b < 0x100
    ensures Hex2(b) == [DIGITS[b / 16], DIGITS[b % 16]]
  {
    assert b >= 16 ==> Digits(b, Hex) == Digits(b / 16, Hex) + [DIGITS[b % 16]];
  }

  // ---- Lines ----

  /** The parser reads lines into a buffer of one character more. */
  const LINE_MAX: nat := 255

  /** What the parser gets first of a line; the rest is read as a line of its own. */
  function FirstRead(line: string): string {
    if |line| <= LINE_MAX then line else line[..LINE_MAX]
  }

  /** A line that does not start with a space ends the description of a widget. */
  predicate LeavesWidget(line: string) {
    line != [] && line[0] != ' '
  }

  // ---- Headings ----

  /** The first of the names from `k` on that `s` starts with, and the text behind it. */
  function FirstPrefix(names: seq<string>, s: string, k: nat): (r: Option<(nat, string)>)
    requires k <= |names|
    ensures r.Some? ==> k <= r.value.0 < |names|
    decreases |names| - k
  {
    if k == |names| then None
    else if names[k] <= s then Some((k, s[|names[k]|..]))
    else FirstPrefix(names, s, k + 1)
  }

  /** Neither starts with the other. */
  ghost predicate Differ(a: string, b: string) {
    exists p :: 0 <= p < |a| && p < |b| && a[p] != b[p]
  }

  ghost predicate AllDiffer(names: seq<string>) {
    forall i, j :: 0 <= i < j < |names| ==> Differ(names[i], names[j])
  }

  /** A text is matched by the name it was printed with. */
  lemma {:induction false} PrefixFound(names: seq<string>, j: nat, rest: string, k: nat)
    requires AllDiffer(names) && k <= j < |names|
    ensures FirstPrefix(names, names[j] + rest, k) == Some((j, rest))
    decreases j - k
  {
    var s := names[j] + rest;
    assert s[|names[j]|..] == rest;
    if k < j {
      var p :| 0 <= p < |names[k]| && p < |names[j]| && names[k][p] != names[j][p];
      assert s[p] == names[j][p];
      PrefixFound(names, j, rest, k + 1);
    }
  }

  /** No name matches a text that starts with none of their first letters. */
  lemma {:induction false} NoPrefix(names: seq<string>, s: string, k: nat)
    requires k <= |names| && forall i :: 0 <= i < |names| ==> names[i] != [] && (s == [] || s[0] != names[i][0])
    ensures FirstPrefix(names, s, k).None?
    decreases |names| - k
  {
    if k < |names| {
      assert !(names[k] <= s);
      NoPrefix(names, s, k + 1);
    }
  }
}
