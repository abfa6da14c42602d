/** Command words as such: which are known, which fault, and how the others are refused. */
module WordLaws {
  import opened Options
  import opened HdaCodec
  import opened Verbs

  /** The verbs that have a handler: eight classes of four bits, or else one of the tables. */
  lemma KnownExactly(cmd: nat)
    ensures VerbOf(cmd).Some? <==> var verb := cmd / 0x100 % 0x1000;
      || verb / 0x100 in {2, 3, 4, 5, 10, 11, 12, 13}
      || verb in {
           0x701, 0x703, 0x704, 0x705, 0x706, 0x707, 0x708, 0x709, 0x70a, 0x70c, 0x70d, 0x70e, 0x70f, 0x715,
           0x716, 0x717, 0x718, 0x719, 0x71a, 0x71c, 0x71d, 0x71e, 0x71f, 0x72d, 0x730, 0x731, 0x732, 0x734, 0x7ff,
           0xf00, 0xf01, 0xf02, 0xf03, 0xf04, 0xf05, 0xf06, 0xf07, 0xf08, 0xf09, 0xf0a, 0xf0c, 0xf0d, 0xf0f, 0xf15,
           0xf16, 0xf17, 0xf18, 0xf19, 0xf1a, 0xf1c, 0xf20, 0xf2d, 0xf2e, 0xf32, 0xf34 }
  {
    ClassOf(cmd / 0x100 % 0x1000);
  }

  lemma ClassOf(verb: nat)
    requires verb < 0x1000
    ensures verb / 0x100 % 0x10 == verb / 0x100
  {
  }

  /** The words that make the emulator fault: for NID 0, those whose handlers need a widget. */
  lemma FaultsExactly(cmd: nat)
    ensures Faults(cmd) <==> var verb := cmd / 0x100 % 0x1000;
      && cmd / 0x10_0000 % 0x80 == 0
      && (|| verb / 0x100 in {4, 5, 12, 13}
          || verb in {
               0x703, 0x704, 0x70a, 0x70f, 0x715, 0x716, 0x717, 0x718, 0x719, 0x71a, 0x72d, 0x732, 0x734,
               0xf03, 0xf04, 0xf0a, 0xf0f, 0xf15, 0xf16, 0xf17, 0xf18, 0xf19, 0xf1a, 0xf2d, 0xf32, 0xf34 }
          || (verb == 0xf00 && cmd % 0x100 == 0x11))
  {
    ClassOf(cmd / 0x100 % 0x1000);
    NeedsExactly(cmd / 0x100 % 0x1000, cmd);
  }

  lemma NeedsExactly(verb: nat, cmd: nat)
    requires verb / 0x100 % 0x10 == verb / 0x100
    ensures FindMatchingVerb(verb).Some? && NeedsNode(FindMatchingVerb(verb).value, cmd) <==>
      || verb / 0x100 in {4, 5, 12, 13}
      || verb in FIELD_VERBS
      || (verb == 0xf00 && cmd % 0x100 == 0x11)
  {
    if verb in FIELD_VERBS {
      assert verb / 0x100 == 7 || verb / 0x100 == 15;
    }
  }

  /** Unknown verbs are refused with -6 and unknown NIDs with -22, both without a response; all others
    * succeed with one, and NID 0 changes nothing.
    */
  lemma AnswersExactly(c: Codec, cmd: nat, other: int)
    requires Valid(c)
    ensures var (c', err, rc) := Command(c, cmd, other);
      var nid := cmd / 0x10_0000 % 0x80;
      var found := exists r: Ref :: r < |c.nodes| && c.nodes[r].nid == nid;
      && err == (if VerbOf(cmd).None? then -6 else if nid != 0 && !found then -22 else 0)
      && (rc.Some? <==> err == 0)
      && (err != 0 || nid == 0 ==> c' == c)
  {
    var nid := cmd / 0x10_0000 % 0x80;
    var hit := Find(c, nid);
    assert hit.Some? ==> c.nodes[hit.value].nid == nid;
  }

  /** Without a widget the modelled verbs answer 0; `other` stands only for verbs and parameters that
    * the model leaves out.
    */
  lemma RootAnswers(c: Codec, cmd: nat, other: int)
    requires Valid(c) && cmd / 0x10_0000 % 0x80 == 0 && VerbOf(cmd).Some? && !Faults(cmd)
    ensures var verb := cmd / 0x100 % 0x1000;
      Command(c, cmd, other).2 == Some(
        if || verb / 0x100 in {3, 11}
           || verb in {0x701, 0x707, 0x71c, 0x71d, 0x71e, 0x71f, 0xf01, 0xf02, 0xf07, 0xf1c}
           || (verb == 0xf00 && cmd % 0x100 in {0x0d, 0x0e, 0x12}) then 0
        else other)
  {
    ClassOf(cmd / 0x100 % 0x1000);
  }

  /** The verbs that set something answer a widget with 0 too. */
  lemma SettersAnswer(c: Codec, cmd: nat, other: int)
    requires Valid(c) && Command(c, cmd, other).1 == 0
    ensures var verb := cmd / 0x100 % 0x1000;
      verb / 0x100 in {3, 4, 5} || verb in {0x701, 0x707, 0x71c, 0x71d, 0x71e, 0x71f} ==>
        Faults(cmd) || Command(c, cmd, other).2 == Some(0)
  {
    ClassOf(cmd / 0x100 % 0x1000);
  }
}
