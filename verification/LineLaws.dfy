/** The lines of a widget as they stand in the proc file: what the parser makes of each. */
module LineLaws {
  import opened Options
  import opened HdaCodec
  import opened Text
  import opened WidgetText
  import PinText
  import Sequences

  lemma HeadingText(s: State, k: nat, heading: string, p: string)
    requires Reading(s) && k < 14 && heading == "  " + HEADINGS[k]
    ensures LineRead(s, heading + p) == FieldRead(s.fields, k, p)
  {
    Sequences.Associative("  ", HEADINGS[k], p);
    HeadingLine(s, k, p);
  }

  lemma PinHeadings()
    ensures "  Pin-ctls: " == "  " + HEADINGS[4]
    ensures "  Pincap " == "  " + HEADINGS[5]
    ensures "  Pin Default " == "  " + HEADINGS[6]
  {
  }

  lemma TextHeadings()
    ensures "  Amp-In caps: " == "  " + HEADINGS[0]
    ensures "  Amp-Out caps: " == "  " + HEADINGS[1]
    ensures "  Unsolicited: " == "  " + HEADINGS[7]
    ensures "  Power: " == "  " + HEADINGS[8]
    ensures "  Processing caps: " == "  " + HEADINGS[9]
    ensures "  Digital category: " == "  " + HEADINGS[11]
  {
  }

  /** The three numbers of a pin each reach their own field and no other; a control is checked against
    * capabilities that were there before.
    */
  lemma PinLines(s: State, n: PinText.Word, text: string)
    requires Reading(s)
    ensures var (number, f) := ("0x" + Hex8(n) + (":" + text), s.fields);
      && LineRead(s, "  Pincap " + number) == Some(State(InWidget, f.(pincap := n)))
      && LineRead(s, "  Pin Default " + number) == Some(State(InWidget, f.(pinDefault := n)))
    ensures var (number, f) := ("0x" + Hex2(n) + (":" + text), s.fields);
      LineRead(s, "  Pin-ctls: " + number)
        == Some(State(InWidget, f.(pinctl := if f.pincap == 0 then n else PinText.Verified(f.pincap, n))))
  {
    PinHeadings();
    PinNumbers(s, n, text, "  Pincap ", "  Pin Default ", "  Pin-ctls: ");
  }

  lemma PinNumbers(s: State, n: PinText.Word, text: string, cap: string, config: string, control: string)
    requires Reading(s) && cap == "  " + HEADINGS[5] && config == "  " + HEADINGS[6] && control == "  " + HEADINGS[4]
    ensures var (number, f) := ("0x" + Hex8(n) + (":" + text), s.fields);
      && LineRead(s, cap + number) == Some(State(InWidget, f.(pincap := n)))
      && LineRead(s, config + number) == Some(State(InWidget, f.(pinDefault := n)))
    ensures var (number, f) := ("0x" + Hex2(n) + (":" + text), s.fields);
      LineRead(s, control + number)
        == Some(State(InWidget, f.(pinctl := if f.pincap == 0 then n else PinText.Verified(f.pincap, n))))
  {
    PinText.PinCapRoundTrip(n, text);
    StrtoulHex8(n, ":" + text);
    StrtoulHex(n, ":" + text);
    Hex8Number(s, cap, config, n, "0x" + Hex8(n) + (":" + text));
    ControlNumber(s, control, n, "0x" + Hex2(n) + (":" + text));
  }

  lemma Hex8Number(s: State, cap: string, config: string, n: PinText.Word, number: string)
    requires Reading(s) && cap == "  " + HEADINGS[5] && config == "  " + HEADINGS[6]
    requires PinText.PinCapOf(number) == n && Strtoul(number).0 == n
    ensures LineRead(s, cap + number) == Some(State(InWidget, s.fields.(pincap := n)))
    ensures LineRead(s, config + number) == Some(State(InWidget, s.fields.(pinDefault := n)))
  {
    Unsigned(n);
    HeadingText(s, 5, cap, number);
    HeadingText(s, 6, config, number);
  }

  lemma ControlNumber(s: State, control: string, n: PinText.Word, number: string)
    requires Reading(s) && control == "  " + HEADINGS[4] && Strtoul(number).0 == n
    ensures LineRead(s, control + number) == Some(State(InWidget, s.fields.(pinctl :=
              if s.fields.pincap == 0 then n else PinText.Verified(s.fields.pincap, n))))
  {
    Unsigned(n);
    HeadingText(s, 4, control, number);
  }

  lemma Unsigned(n: PinText.Word)
    ensures ToUnsigned(n) == n
  {
  }

  /** The lines of which the text is kept, each for itself, and the one that is passed over. */
  lemma TextLines(s: State, p: string)
    requires Reading(s)
    ensures LineRead(s, "  Amp-In caps: " + p) == Kept(s, 0, p)
    ensures LineRead(s, "  Amp-Out caps: " + p) == Kept(s, 1, p)
    ensures LineRead(s, "  Unsolicited: " + p) == Some(State(InWidget, s.fields))
    ensures LineRead(s, "  Power: " + p) == Kept(s, 8, p)
    ensures LineRead(s, "  Processing caps: " + p) == Kept(s, 9, p)
    ensures LineRead(s, "  Digital category: " + p) == Kept(s, 11, p)
  {
    TextHeadings();
    TextLine(s, 0, "  Amp-In caps: ", p);
    TextLine(s, 1, "  Amp-Out caps: ", p);
    TextLine(s, 8, "  Power: ", p);
    TextLine(s, 9, "  Processing caps: ", p);
    TextLine(s, 11, "  Digital category: ", p);
    HeadingText(s, 7, "  Unsolicited: ", p);
  }

  function Kept(s: State, k: Plain, p: string): Option<State> {
    Some(State(InWidget, s.fields.(plain := s.fields.plain[k := p])))
  }

  lemma TextLine(s: State, k: Named, heading: string, p: string)
    requires Reading(s) && heading == "  " + HEADINGS[k]
    ensures LineRead(s, heading + p) == Kept(s, k, p)
  {
    HeadingText(s, k, heading, p);
  }

  /** Outside a widget nothing is read, and a line without an indent ends it, whatever it says. */
  lemma LeavesExactly(s: State, line: string)
    ensures (s.mode == Outside || line == [] || line[0] != ' ') ==>
      LineRead(s, line) == Some(State(Outside, s.fields))
    ensures Reading(s) && line != [] && line[0] == ' ' && LineRead(s, line).Some? ==>
      LineRead(s, line).value.mode != Outside
  {
  }

  /** The PCM block is open behind its heading, if that has nothing else in its line. */
  lemma PcmHeading(s: State, p: string)
    requires Reading(s)
    ensures LineRead(s, "  PCM:" + p)
         == Some(State(if p != [] && p[0] == ' ' then InWidget else InPcm, s.fields))
  {
    assert "  PCM:" == "  " + HEADINGS[12];
    HeadingText(s, 12, "  PCM:", p);
  }

  lemma PcmTexts()
    ensures "    rates [" == "    " + PCM_HEADINGS[0]
    ensures "    bits [" == "    " + PCM_HEADINGS[1]
    ensures "    formats [" == "    " + PCM_HEADINGS[2]
  {
  }

  /** Each of its three lines is kept. */
  lemma PcmLinesRead(f: Fields, p: string)
    ensures LineRead(State(InPcm, f), "    rates [" + p) == Some(State(InPcm, f.(plain := f.plain[14 := p])))
    ensures LineRead(State(InPcm, f), "    bits [" + p) == Some(State(InPcm, f.(plain := f.plain[15 := p])))
    ensures LineRead(State(InPcm, f), "    formats [" + p) == Some(State(InPcm, f.(plain := f.plain[16 := p])))
  {
    PcmTexts();
    assert LineRead(State(InPcm, f), "    rates [" + p) == Some(State(InPcm, f.(plain := f.plain[14 := p]))) by {
      PcmLineRead(f, 0, "    rates [", p);
    }
    assert LineRead(State(InPcm, f), "    bits [" + p) == Some(State(InPcm, f.(plain := f.plain[15 := p]))) by {
      PcmLineRead(f, 1, "    bits [", p);
    }
    PcmLineRead(f, 2, "    formats [", p);
  }

  lemma PcmLineRead(f: Fields, j: nat, heading: string, p: string)
    requires j < 3 && heading == "    " + PCM_HEADINGS[j]
    ensures LineRead(State(InPcm, f), heading + p) == Some(State(InPcm, f.(plain := f.plain[14 + j := p])))
  {
    var head := PCM_HEADINGS[j] + p;
    Sequences.Associative("    ", PCM_HEADINGS[j], p);
    PcmHeadings();
    SkipIndent(head);
    PrefixFound(PCM_HEADINGS, j, p, 0);
    assert ("    " + head)[0] == ' ';
  }
}
