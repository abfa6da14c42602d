/** Pins under command words: what the words store and what that does to the signal routes. */
module PinLaws {
  import opened Options
  import opened HdaCodec
  import opened Verbs
  import opened VerbLaws
  import opened Routes
  import opened RouteLaws

  const VERB_SET_PIN: nat := 0x707
  const VERB_GET_PIN: nat := 0xf07
  const VERB_SET_CONFIG: nat := 0x71c
  const VERB_GET_CONFIG: nat := 0xf1c

  /** Byte `j` of a word. */
  function ByteAt(w: nat, j: nat): nat
    requires j < 4
  {
    if j == 0 then w % 0x100
    else if j == 1 then w / 0x100 % 0x100
    else if j == 2 then w / 0x1_0000 % 0x100
    else w / 0x100_0000 % 0x100
  }

  /** Storing a byte replaces it and keeps the others. */
  lemma ByteStored(w: nat, k: nat, b: Byte, j: nat)
    requires k < 4 && j < 4 && w < 0x1_0000_0000
    ensures ByteSet(w, k, b) < 0x1_0000_0000
    ensures ByteAt(ByteSet(w, k, b), j) == if j == k then b else ByteAt(w, j)
  {
    var b0, b1, b2, b3 := ByteAt(w, 0), ByteAt(w, 1), ByteAt(w, 2), ByteAt(w, 3);
    BytesOf(w);
    StoredAs(b0, b1, b2, b3, k, b);
    BytesAt(if k == 0 then b else b0, if k == 1 then b else b1, if k == 2 then b else b2, if k == 3 then b else b3);
  }

  lemma StoredAs(b0: Byte, b1: Byte, b2: Byte, b3: Byte, k: nat, b: Byte)
    requires k < 4
    ensures ByteSet(Joined(b0, b1, b2, b3), k, b)
         == Joined(if k == 0 then b else b0, if k == 1 then b else b1,
                   if k == 2 then b else b2, if k == 3 then b else b3)
  {
    var w := Joined(b0, b1, b2, b3);
    Cuts(b0, b1, b2, b3);
  }

  /** Cutting a word at its byte limits. */
  lemma Cuts(b0: Byte, b1: Byte, b2: Byte, b3: Byte)
    ensures var w := Joined(b0, b1, b2, b3);
      && w / 0x100 == b1 + 0x100 * b2 + 0x1_0000 * b3 && w % 0x100 == b0
      && w / 0x1_0000 == b2 + 0x100 * b3 && w % 0x1_0000 == b0 + 0x100 * b1
      && w / 0x100_0000 == b3 && w % 0x100_0000 == b0 + 0x100 * b1 + 0x1_0000 * b2
      && w / 0x1_0000_0000 == 0 && w % 1 == 0
  {
    var w := Joined(b0, b1, b2, b3);
    assert w / 0x100 == b1 + 0x100 * b2 + 0x1_0000 * b3;
    assert w / 0x1_0000 == b2 + 0x100 * b3;
    assert w / 0x100_0000 == b3;
  }

  function Joined(b0: nat, b1: nat, b2: nat, b3: nat): nat {
    b0 + 0x100 * b1 + 0x1_0000 * b2 + 0x100_0000 * b3
  }

  lemma BytesOf(w: nat)
    requires w < 0x1_0000_0000
    ensures w == Joined(ByteAt(w, 0), ByteAt(w, 1), ByteAt(w, 2), ByteAt(w, 3))
  {
    var q1 := w / 0x100;
    var q2 := q1 / 0x100;
    var q3 := q2 / 0x100;
    DividedTwice(w, 0x100);
    DividedTwice(w, 0x1_0000);
    assert q3 < 0x100;
  }

  /** Dividing by 0x100 once more. */
  lemma DividedTwice(w: nat, d: nat)
    requires d == 0x100 || d == 0x1_0000
    ensures w / d / 0x100 == w / (0x100 * d)
  {
    var q := w / d / 0x100;
    var r1, r2 := w % d, w / d % 0x100;
    assert w == d * (0x100 * q + r2) + r1;
    if d == 0x100 {
      assert w == 0x1_0000 * q + (0x100 * r2 + r1);
    } else {
      assert w == 0x100_0000 * q + (0x1_0000 * r2 + r1);
    }
  }

  lemma BytesAt(b0: Byte, b1: Byte, b2: Byte, b3: Byte)
    ensures var w := Joined(b0, b1, b2, b3);
      ByteAt(w, 0) == b0 && ByteAt(w, 1) == b1 && ByteAt(w, 2) == b2 && ByteAt(w, 3) == b3
  {
    var w := Joined(b0, b1, b2, b3);
    Cuts(b0, b1, b2, b3);
  }

  // ---- What the words store ----

  lemma PinWords(c: Codec, nid: nat, p: Byte, other: int)
    requires Valid(c) && 0 < nid < 0x80 && Find(c, nid).Some?
    ensures var r := Find(c, nid).value; var n := c.nodes[r];
      && Command(c, VerbWord(nid, VERB_SET_PIN, p), other) == (c.(nodes := c.nodes[r := n.(pinctl := p)]), 0, Some(0))
      && Command(c, VerbWord(nid, VERB_GET_PIN, p), other) == (c, 0, Some(n.pinctl))
      && Command(c, VerbWord(nid, VERB_GET_CONFIG, p), other) == (c, 0, Some(n.pinDefault))
  {
    VerbWordDecodes(nid, VERB_SET_PIN, p);
    VerbWordDecodes(nid, VERB_GET_PIN, p);
    VerbWordDecodes(nid, VERB_GET_CONFIG, p);
    var r := Find(c, nid).value;
    PinCommands(c, VerbWord(nid, VERB_SET_PIN, p), r, other);
    PinCommands(c, VerbWord(nid, VERB_GET_PIN, p), r, other);
    PinCommands(c, VerbWord(nid, VERB_GET_CONFIG, p), r, other);
  }

  lemma PinCommands(c: Codec, cmd: nat, r: Ref, other: int)
    requires Valid(c) && Nid(cmd) != 0 && Find(c, Nid(cmd)) == Some(r)
    ensures var verb, n := cmd / 0x100 % 0x1000, c.nodes[r];
      && (verb == 0x707 ==>
            Command(c, cmd, other) == (c.(nodes := c.nodes[r := n.(pinctl := cmd % 0x100)]), 0, Some(0)))
      && (verb == 0xf07 ==> Command(c, cmd, other) == (c, 0, Some(n.pinctl)))
      && (verb == 0xf1c ==> Command(c, cmd, other) == (c, 0, Some(n.pinDefault)))
  {
    assert c.nodes[r := c.nodes[r]] == c.nodes;
  }

  /** The four words of the configuration store its four bytes, lowest first. */
  lemma ConfigWord(c: Codec, nid: nat, k: nat, p: Byte, other: int)
    requires Valid(c) && 0 < nid < 0x80 && Find(c, nid).Some? && k < 4
    requires c.nodes[Find(c, nid).value].pinDefault < 0x1_0000_0000
    ensures var r := Find(c, nid).value; var n := c.nodes[r];
      var (c', err, rc) := Command(c, VerbWord(nid, VERB_SET_CONFIG + k, p), other);
      && err == 0 && rc == Some(0) && |c'.nodes| == |c.nodes|
      && c' == c.(nodes := c.nodes[r := n.(pinDefault := c'.nodes[r].pinDefault)])
      && c'.nodes[r].pinDefault < 0x1_0000_0000
      && forall j :: 0 <= j < 4 ==> ByteAt(c'.nodes[r].pinDefault, j) == if j == k then p else ByteAt(n.pinDefault, j)
  {
    var r := Find(c, nid).value;
    var cfg := c.nodes[r].pinDefault;
    VerbWordDecodes(nid, VERB_SET_CONFIG + k, p);
    ConfigCommand(c, VerbWord(nid, VERB_SET_CONFIG + k, p), r, k, other);
    forall j | 0 <= j < 4
      ensures ByteAt(ByteSet(cfg, k, p), j) == if j == k then p else ByteAt(cfg, j)
    {
      ByteStored(cfg, k, p, j);
    }
    ByteStored(cfg, k, p, 0);
  }

  lemma ConfigCommand(c: Codec, cmd: nat, r: Ref, k: nat, other: int)
    requires Valid(c) && Nid(cmd) != 0 && Find(c, Nid(cmd)) == Some(r) && k < 4
    requires cmd / 0x100 % 0x1000 == 0x71c + k
    ensures var n := c.nodes[r];
      Command(c, cmd, other)
        == (c.(nodes := c.nodes[r := n.(pinDefault := ByteSet(n.pinDefault, k, cmd % 0x100))]), 0, Some(0))
  {
  }

  // ---- What that does to routes ----

  /** Only the state of pin `r` differs. */
  ghost predicate SameButPin(c: Codec, c': Codec, r: Ref) {
    && r < |c.nodes| == |c'.nodes| && c'.afgLen == c.afgLen
    && (forall q: Ref :: q < |c.nodes| && q != r ==> c'.nodes[q] == c.nodes[q])
    && c'.nodes[r] == c.nodes[r].(pinctl := c'.nodes[r].pinctl, pinDefault := c'.nodes[r].pinDefault)
  }

  lemma {:induction false} FindSame(c: Codec, c': Codec, r: Ref, nid: nat, k: Ref)
    requires SameButPin(c, c', r) && k <= |c.nodes|
    ensures FindFrom(c', nid, k) == FindFrom(c, nid, k)
    decreases |c.nodes| - k
  {
    if k < |c.nodes| {
      FindSame(c, c', r, nid, k + 1);
    }
  }

  /** A backward route from a pin: what it is apart from the state of the pin, and that state. */
  lemma FromPinExactly(c: Codec, c': Codec, flags: Flags, t: Ref, w: Walk)
    requires w.path != [] && SameButPin(c, c', w.path[0]) && c.nodes[w.path[0]].wcaps / 0x10_0000 % 16 == 4
    ensures RouteTo(c', flags, t, w) <==>
      && RouteTo(c, flags.(showInactive := true), t, w)
      && (flags.showInactive || (c'.nodes[w.path[0]].pinDefault / 0x4000_0000 % 4 != 1
                                 && c'.nodes[w.path[0]].pinctl / 0x20 % 2 == 1))
  {
    var shown := flags.(showInactive := true);
    if WellShaped(c, w) {
      forall k | 0 <= k < |w.idx|
        ensures HopTo(c', flags, w.path[k], w.idx[k], w.path[k+1])
           <==> HopTo(c, shown, w.path[k], w.idx[k], w.path[k+1])
      {
        HopSame(c, c', flags, w.path[0], w.path[k], w.idx[k], w.path[k+1]);
      }
      assert forall k :: 0 <= k < |w.path| ==> Type(c'.nodes[w.path[k]]) == Type(c.nodes[w.path[k]]);
    }
  }

  lemma HopSame(c: Codec, c': Codec, flags: Flags, r: Ref, source: Ref, i: nat, consumer: Ref)
    requires SameButPin(c, c', r) && source < |c.nodes| && consumer < |c.nodes|
    ensures HopTo(c', flags, source, i, consumer) <==> HopTo(c, flags.(showInactive := true), source, i, consumer)
  {
    if i < |c.nodes[consumer].conns| {
      FindSame(c, c', r, c.nodes[consumer].conns[i], 0);
    }
  }

  /** A forward route to a pin. */
  lemma ToPinExactly(c: Codec, c': Codec, flags: Flags, s: Ref, w: Walk)
    requires w.path != [] && SameButPin(c, c', w.path[|w.path| - 1])
    requires c.nodes[w.path[|w.path| - 1]].wcaps / 0x10_0000 % 16 == 4
    ensures var pin := c'.nodes[w.path[|w.path| - 1]];
      RouteFrom(c', flags, s, w) <==>
      && RouteFrom(c, flags.(showInactive := true), s, w)
      && (flags.showInactive || (pin.pinDefault / 0x4000_0000 % 4 != 1 && pin.pinctl / 0x40 % 2 == 1))
  {
    var shown := flags.(showInactive := true);
    if WellShaped(c, w) {
      forall k | 0 <= k < |w.idx|
        ensures HopFrom(c', flags, w.path[k], w.idx[k], w.path[k+1])
           <==> HopFrom(c, shown, w.path[k], w.idx[k], w.path[k+1])
      {
      }
      assert forall k :: 0 <= k < |w.path| ==> Type(c'.nodes[w.path[k]]) == Type(c.nodes[w.path[k]]);
    }
  }

  /** After its pin control was set to `p`, a pin starts routes exactly if that enables its input, and
    * ends them exactly if it enables its output, unless it is not connected.
    */
  lemma PinWordRoutes(c: Codec, nid: nat, p: Byte, other: int, flags: Flags, end: Ref, w: Walk)
    requires Valid(c) && 0 < nid < 0x80 && Find(c, nid).Some? && !flags.showInactive && w.path != []
    requires c.nodes[Find(c, nid).value].wcaps / 0x10_0000 % 16 == 4
    ensures var r := Find(c, nid).value; var n, shown := c.nodes[r], flags.(showInactive := true);
      var c' := Command(c, VerbWord(nid, VERB_SET_PIN, p), other).0;
      && (w.path[0] == r ==>
            (RouteTo(c', flags, end, w) <==>
             RouteTo(c, shown, end, w) && n.pinDefault / 0x4000_0000 % 4 != 1 && p / 0x20 % 2 == 1))
      && (w.path[|w.path| - 1] == r ==>
            (RouteFrom(c', flags, end, w) <==>
             RouteFrom(c, shown, end, w) && n.pinDefault / 0x4000_0000 % 4 != 1 && p / 0x40 % 2 == 1))
  {
    PinWords(c, nid, p, other);
    var c' := Command(c, VerbWord(nid, VERB_SET_PIN, p), other).0;
    assert SameButPin(c, c', Find(c, nid).value);
    if w.path[0] == Find(c, nid).value {
      FromPinExactly(c, c', flags, end, w);
    }
    if w.path[|w.path| - 1] == Find(c, nid).value {
      ToPinExactly(c, c', flags, end, w);
    }
  }

  lemma Connectivity(w: nat)
    requires w < 0x1_0000_0000
    ensures w / 0x4000_0000 % 4 == ByteAt(w, 3) / 0x40
  {
    var q := w / 0x100_0000;
    var a, b := q / 0x40, q % 0x40;
    assert w == 0x4000_0000 * a + (0x100_0000 * b + w % 0x100_0000);
    assert w / 0x4000_0000 == a < 4;
  }

  /** After its highest configuration byte was set to `p`, a pin takes part in routes only if that does
    * not say that nothing is connected; the other bytes change nothing.
    */
  lemma ConfigWordRoutes(c: Codec, nid: nat, k: nat, p: Byte, other: int, flags: Flags, end: Ref, w: Walk)
    requires Valid(c) && 0 < nid < 0x80 && Find(c, nid).Some? && k < 4 && !flags.showInactive && w.path != []
    requires c.nodes[Find(c, nid).value].wcaps / 0x10_0000 % 16 == 4
    requires c.nodes[Find(c, nid).value].pinDefault < 0x1_0000_0000
    ensures var r := Find(c, nid).value; var n, shown := c.nodes[r], flags.(showInactive := true);
      var c' := Command(c, VerbWord(nid, VERB_SET_CONFIG + k, p), other).0;
      var connected := if k == 3 then p / 0x40 != 1 else n.pinDefault / 0x4000_0000 % 4 != 1;
      && (w.path[0] == r ==>
            (RouteTo(c', flags, end, w) <==> RouteTo(c, shown, end, w) && connected && n.pinctl / 0x20 % 2 == 1))
      && (w.path[|w.path| - 1] == r ==>
            (RouteFrom(c', flags, end, w) <==> RouteFrom(c, shown, end, w) && connected && n.pinctl / 0x40 % 2 == 1))
  {
    ConfigWord(c, nid, k, p, other);
    var r := Find(c, nid).value;
    var c' := Command(c, VerbWord(nid, VERB_SET_CONFIG + k, p), other).0;
    Connectivity(c.nodes[r].pinDefault);
    Connectivity(c'.nodes[r].pinDefault);
    assert SameButPin(c, c', r);
    if w.path[0] == r {
      FromPinExactly(c, c', flags, end, w);
    }
    if w.path[|w.path| - 1] == r {
      ToPinExactly(c, c', flags, end, w);
    }
  }
}
