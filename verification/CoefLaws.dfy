/** Coefficient tables, connection lists and connection selectors, as a driver sees them through
  * the verbs.
  */
module CoefLaws {
  import opened Options
  import opened HdaCodec
  import opened Verbs
  import opened VerbLaws

  // ---- The coefficient table ----

  predicate DistinctCoefs(tbl: seq<Coef>) {
    forall i, j :: 0 <= i < j < |tbl| ==> tbl[i].idx != tbl[j].idx
  }

  /** What an entry keeps of an index: its low half. */
  function Low(idx: nat): Half {
    idx % 0x1_0000
  }

  /** A write shows at the low half of its index and nowhere else, so that it is read back at the
    * index itself exactly when that fits 16 bits, or by chance.
    */
  lemma CoefWrittenAt(tbl: seq<Coef>, idx: nat, value: Half, j: nat)
    ensures CoefAt(CoefWritten(tbl, idx, value), j) == if j == Low(idx) then value else CoefAt(tbl, j)
    ensures CoefAt(CoefWritten(tbl, idx, value), idx) == value <==> idx < 0x1_0000 || value == 0
    ensures FindCoef(CoefWritten(tbl, idx, value), j, 0).Some? <==> j == Low(idx) || FindCoef(tbl, j, 0).Some?
  {
    WrittenFound(tbl, idx, value, j);
    WrittenFound(tbl, idx, value, idx);
  }

  lemma WrittenFound(tbl: seq<Coef>, idx: nat, value: Half, j: nat)
    ensures CoefAt(CoefWritten(tbl, idx, value), j) == if j == Low(idx) then value else CoefAt(tbl, j)
    ensures FindCoef(CoefWritten(tbl, idx, value), j, 0).Some? <==> j == Low(idx) || FindCoef(tbl, j, 0).Some?
  {
    var k := FindCoef(tbl, idx, 0);
    if k.Some? {
      FindUpdated(tbl, k.value, value, j, 0);
      assert FindCoef(CoefWritten(tbl, idx, value), j, 0) == FindCoef(tbl, j, 0);
    } else {
      FindPushed(tbl, Coef(Low(idx), value), j, 0);
      assert CoefWritten(tbl, idx, value) == [Coef(Low(idx), value)] + tbl;
    }
  }

  lemma {:induction false} FindUpdated(tbl: seq<Coef>, k: nat, value: Half, j: nat, from: nat)
    requires k < |tbl| && from <= |tbl|
    ensures FindCoef(tbl[k := tbl[k].(value := value)], j, from) == FindCoef(tbl, j, from)
    decreases |tbl| - from
  {
    if from < |tbl| {
      FindUpdated(tbl, k, value, j, from + 1);
    }
  }

  lemma {:induction false} FindPushed(tbl: seq<Coef>, c: Coef, j: nat, from: nat)
    requires from <= |tbl|
    ensures FindCoef([c] + tbl, j, from + 1)
         == match FindCoef(tbl, j, from) case Some(k) => Some(k + 1) case None => None
    decreases |tbl| - from
  {
    if from < |tbl| {
      FindPushed(tbl, c, j, from + 1);
    }
  }

  /** The index counts on past 16 bits while entries do not: a write keeps the table free of
    * duplicates exactly when the index still fits or its low half is new.
    */
  lemma WriteKeepsDistinctExactly(tbl: seq<Coef>, idx: nat, value: Half)
    requires DistinctCoefs(tbl)
    ensures DistinctCoefs(CoefWritten(tbl, idx, value))
      <==> idx < 0x1_0000 || FindCoef(tbl, Low(idx), 0).None?
  {
    var tbl' := CoefWritten(tbl, idx, value);
    if FindCoef(tbl, idx, 0).None? {
      var k := FindCoef(tbl, Low(idx), 0);
      if k.Some? {
        assert tbl'[0].idx == tbl'[k.value + 1].idx;
      }
    }
  }

  // ---- Bursts ----

  function WriteAll(node: Node, vs: seq<Half>): Node
    decreases |vs|
  {
    if vs == [] then node else WriteAll(ProcCoefSet(node, vs[0]), vs[1..])
  }

  function ReadAll(node: Node, n: nat): (Node, seq<Half>)
    decreases n
  {
    if n == 0 then (node, [])
    else
      var (node1, v) := ProcCoefRead(node);
      var (node2, vs) := ReadAll(node1, n - 1);
      (node2, [v] + vs)
  }

  /** Where the value at place `k` of a burst from `s` on goes. */
  function Slot(s: nat, k: nat): Half {
    Low(s + k)
  }

  lemma SlotsDiffer(s: nat, j: nat, k: nat)
    requires j < k < j + 0x1_0000
    ensures Slot(s, j) != Slot(s, k)
  {
    var q, d := (s + j) / 0x1_0000, k - j;
    assert s + j == 0x1_0000 * q + Slot(s, j);
    if Slot(s, j) + d < 0x1_0000 {
      assert (s + k) / 0x1_0000 == q;
    } else {
      assert (s + k) / 0x1_0000 == q + 1;
    }
  }

  /** Place `k` is the last of `n` whose value goes to `j`. */
  predicate LastAt(s: nat, n: nat, k: nat, j: nat) {
    k < n <= k + 0x1_0000 && Slot(s, k) == j
  }

  /** After a burst an index holds the last value that went there, or what it held before. */
  lemma {:induction false} WriteAllEffect(node: Node, vs: seq<Half>, j: nat)
    ensures var node' := WriteAll(node, vs);
      && node' == node.(coefTbl := node'.coefTbl, coefIdx := node.coefIdx + |vs|)
      && (forall k: nat :: LastAt(node.coefIdx, |vs|, k, j) ==> CoefAt(node'.coefTbl, j) == vs[k])
      && ((forall k: nat :: k < |vs| ==> Slot(node.coefIdx, k) != j)
            ==> CoefAt(node'.coefTbl, j) == CoefAt(node.coefTbl, j))
    decreases |vs|
  {
    if vs != [] {
      var s, n, node1 := node.coefIdx, |vs|, ProcCoefSet(node, vs[0]);
      var t := s + 1;
      CoefWrittenAt(node.coefTbl, s, vs[0], j);
      WriteAllEffect(node1, vs[1..], j);
      assert forall k: nat :: Slot(t, k) == Slot(s, k + 1);
      assert Slot(s, 0) == Low(s);
      forall k: nat | LastAt(s, n, k, j)
        ensures CoefAt(WriteAll(node, vs).coefTbl, j) == vs[k]
      {
        if k > 0 {
          assert LastAt(t, n - 1, k - 1, j);
        } else {
          forall d: nat | d < n - 1
            ensures Slot(t, d) != j
          {
            SlotsDiffer(s, 0, d + 1);
          }
        }
      }
    }
  }

  lemma {:induction false} ReadAllEffect(node: Node, n: nat)
    ensures var (node', vs) := ReadAll(node, n);
      && node' == node.(coefIdx := node.coefIdx + n) && |vs| == n
      && forall k :: 0 <= k < n ==> vs[k] == CoefAt(node.coefTbl, node.coefIdx + k)
    decreases n
  {
    if n > 0 {
      var (node1, v) := ProcCoefRead(node);
      ReadAllEffect(node1, n - 1);
      var vs := ReadAll(node1, n - 1).1;
      forall k | 0 <= k < n
        ensures ([v] + vs)[k] == CoefAt(node.coefTbl, node.coefIdx + k)
      {
        if k > 0 {
          assert vs[k-1] == CoefAt(node1.coefTbl, node1.coefIdx + (k - 1));
        }
      }
    }
  }

  /** The values that a burst of this length loses: those at an index past 16 bits, which is never
    * found again, and those that the burst overwrites when it comes round.
    */
  predicate Lost(i: nat, n: nat, k: nat) {
    i + k >= 0x1_0000 || k + 0x1_0000 < n
  }

  lemma HighIsZero(tbl: seq<Coef>, idx: nat)
    requires idx >= 0x1_0000
    ensures CoefAt(tbl, idx) == 0
  {
  }

  /** `v` is what is found at place `k`: the value, if it was the last to go there; 0 past 16 bits;
    * else one from past 16 bits.
    */
  ghost predicate FoundAt(i: nat, vs: seq<Half>, k: nat, v: Half)
    requires k < |vs|
  {
    if i + k >= 0x1_0000 then v == 0
    else if !Lost(i, |vs|, k) then v == vs[k]
    else exists k': nat :: k' < |vs| && i + k' >= 0x1_0000 && v == vs[k']
  }

  lemma BurstReadsAt(start: Node, vs: seq<Half>, k: nat)
    requires start.coefIdx < 0x1_0000 && k < |vs|
    ensures FoundAt(start.coefIdx, vs, k, CoefAt(WriteAll(start, vs).coefTbl, start.coefIdx + k))
  {
    var i := start.coefIdx;
    if i + k >= 0x1_0000 {
      HighIsZero(WriteAll(start, vs).coefTbl, i + k);
    } else {
      var k' := LastPlace(i, |vs|, k);
      LastIsRead(start, vs, k', i + k);
    }
  }

  lemma LastIsRead(start: Node, vs: seq<Half>, k: nat, j: nat)
    requires LastAt(start.coefIdx, |vs|, k, j)
    ensures CoefAt(WriteAll(start, vs).coefTbl, j) == vs[k]
  {
    WriteAllEffect(start, vs, j);
  }

  lemma LastPlace(i: nat, n: nat, k: nat) returns (k': nat)
    requires k < n && i + k < 0x1_0000
    ensures LastAt(i, n, k', i + k)
    ensures if k + 0x1_0000 < n then i + k' >= 0x1_0000 else k' == k
    decreases n - k
  {
    k' := k;
    while k' + 0x1_0000 < n
      invariant k <= k' < n && Slot(i, k') == i + k
      invariant k' > k ==> i + k' >= 0x1_0000
      invariant k + 0x1_0000 >= n ==> k' == k
    {
      k' := k' + 0x1_0000;
    }
  }

  lemma BurstReads(start: Node, vs: seq<Half>)
    requires start.coefIdx < 0x1_0000
    ensures var rs := ReadAll(WriteAll(start, vs).(coefIdx := start.coefIdx), |vs|).1;
      |rs| == |vs| && forall k: nat :: k < |vs| ==> FoundAt(start.coefIdx, vs, k, rs[k])
  {
    var i, written := start.coefIdx, WriteAll(start, vs);
    var rs := ReadAll(written.(coefIdx := i), |vs|).1;
    ReadAllEffect(written.(coefIdx := i), |vs|);
    forall k: nat | k < |vs|
      ensures FoundAt(i, vs, k, rs[k])
    {
      BurstReadsAt(start, vs, k);
      assert rs[k] == CoefAt(written.coefTbl, i + k);
    }
  }

  /** Select, write a burst, select again, read: the values come back, unless one that is not 0 was
    * lost ...
    */
  lemma BurstRoundTripExactly(node: Node, i: Half, vs: seq<Half>)
    ensures ReadAll(CoefIndexSet(WriteAll(CoefIndexSet(node, i), vs), i), |vs|).1 == vs
       <==> forall k: nat :: k < |vs| && Lost(i, |vs|, k) ==> vs[k] == 0
  {
    BurstReads(CoefIndexSet(node, i), vs);
    ComesBackExactly(i, vs, ReadAll(CoefIndexSet(WriteAll(CoefIndexSet(node, i), vs), i), |vs|).1);
  }

  lemma ComesBackExactly(i: nat, vs: seq<Half>, rs: seq<Half>)
    requires |rs| == |vs| && forall k: nat :: k < |vs| ==> FoundAt(i, vs, k, rs[k])
    ensures rs == vs <==> forall k: nat :: k < |vs| && Lost(i, |vs|, k) ==> vs[k] == 0
  {
    assert forall k: nat :: k < |vs| ==> FoundAt(i, vs, k, rs[k]);
    if rs != vs {
      var k :| 0 <= k < |vs| && rs[k] != vs[k];
      assert Lost(i, |vs|, k);
      if i + k < 0x1_0000 {
        var k': nat :| k' < |vs| && i + k' >= 0x1_0000 && rs[k] == vs[k'];
        assert Lost(i, |vs|, k');
      }
    }
  }

  /** ... every index that is not the low half of one in the burst keeps its own ... */
  lemma BurstKeepsOthers(node: Node, i: Half, vs: seq<Half>, j: nat)
    requires !(i <= j < i + |vs|) && j + 0x1_0000 >= i + |vs|
    ensures CoefAt(WriteAll(CoefIndexSet(node, i), vs).coefTbl, j) == CoefAt(node.coefTbl, j)
  {
    forall k: nat | k < |vs|
      ensures Slot(i, k) != j
    {
      SlotElsewhere(i, |vs|, k, j);
    }
    WriteAllEffect(CoefIndexSet(node, i), vs, j);
  }

  lemma SlotElsewhere(i: Half, n: nat, k: nat, j: nat)
    requires k < n && !(i <= j < i + n) && j + 0x1_0000 >= i + n
    ensures Slot(i, k) != j
  {
    var idx := i + k;
    if idx < 0x1_0000 {
      assert Slot(i, k) == idx;
    } else if idx < 0x2_0000 {
      assert idx / 0x1_0000 == 1;
      assert Slot(i, k) == idx - 0x1_0000;
    } else {
      assert j > 0x1_0000 > Slot(i, k);
    }
  }

  /** The write at place `k` of a burst enters an index that is there already. */
  predicate EntersTwice(tbl: seq<Coef>, s: nat, k: nat) {
    s + k >= 0x1_0000 && (FindCoef(tbl, Slot(s, k), 0).Some? || Revisits(s, k))
  }

  predicate Revisits(s: nat, k: nat) {
    exists j: nat :: j < k && Slot(s, j) == Slot(s, k)
  }

  lemma {:induction false} WriteAllDistinct(node: Node, vs: seq<Half>)
    requires DistinctCoefs(node.coefTbl)
    ensures DistinctCoefs(WriteAll(node, vs).coefTbl)
       <==> forall k: nat :: k < |vs| ==> !EntersTwice(node.coefTbl, node.coefIdx, k)
    decreases |vs|
  {
    if vs != [] {
      var tbl, s, node1, rest := node.coefTbl, node.coefIdx, ProcCoefSet(node, vs[0]), vs[1..];
      WriteKeepsDistinctExactly(tbl, s, vs[0]);
      assert Slot(s, 0) == Low(s) && !Revisits(s, 0);
      if DistinctCoefs(node1.coefTbl) {
        WriteAllDistinct(node1, rest);
        var t := s + 1;
        forall k: nat
          ensures EntersTwice(node1.coefTbl, t, k) <==> EntersTwice(tbl, s, k + 1)
        {
          EntersTwiceNext(tbl, s, vs[0], k);
        }
        assert forall k: nat :: 0 < k < |vs| && EntersTwice(tbl, s, k) ==> EntersTwice(node1.coefTbl, t, k - 1);
      } else {
        DuplicatesStay(node1, rest);
        assert EntersTwice(tbl, s, 0);
      }
    }
  }

  lemma EntersTwiceNext(tbl: seq<Coef>, s: nat, value: Half, k: nat)
    ensures EntersTwice(CoefWritten(tbl, s, value), s + 1, k) <==> EntersTwice(tbl, s, k + 1)
  {
    CoefWrittenAt(tbl, s, value, Slot(s + 1, k));
    assert Slot(s, 0) == Low(s);
    var t := s + 1;
    assert forall j: nat :: Slot(t, j) == Slot(s, j + 1);
    if j: nat :| j < k + 1 && Slot(s, j) == Slot(s, k + 1) {
      assert j > 0 ==> Slot(t, j - 1) == Slot(t, k);
    }
  }

  lemma {:induction false} DuplicatesStay(node: Node, vs: seq<Half>)
    requires !DistinctCoefs(node.coefTbl)
    ensures !DistinctCoefs(WriteAll(node, vs).coefTbl)
    decreases |vs|
  {
    if vs != [] {
      var tbl, tbl' := node.coefTbl, CoefWritten(node.coefTbl, node.coefIdx, vs[0]);
      var i, j :| 0 <= i < j < |tbl| && tbl[i].idx == tbl[j].idx;
      if FindCoef(tbl, node.coefIdx, 0).Some? {
        assert tbl'[i].idx == tbl'[j].idx;
      } else {
        assert tbl'[i+1].idx == tbl'[j+1].idx;
      }
      DuplicatesStay(ProcCoefSet(node, vs[0]), vs[1..]);
    }
  }

  /** ... and no index is entered twice, exactly as long as the burst does not come round to where it
    * began and the low half of no index past 16 bits is in the table.
    */
  lemma BurstKeepsDistinctExactly(node: Node, i: Half, vs: seq<Half>)
    requires DistinctCoefs(node.coefTbl)
    ensures DistinctCoefs(WriteAll(CoefIndexSet(node, i), vs).coefTbl)
       <==> |vs| <= 0x1_0000 && forall j: nat :: j + 0x1_0000 < i + |vs| ==> FindCoef(node.coefTbl, j, 0).None?
  {
    var tbl := node.coefTbl;
    WriteAllDistinct(CoefIndexSet(node, i), vs);
    if |vs| > 0x1_0000 {
      assert Slot(i, 0) == Slot(i, 0x1_0000);
      assert EntersTwice(tbl, i, 0x1_0000);
    } else {
      if k: nat :| k < |vs| && EntersTwice(tbl, i, k) {
        OnceRound(tbl, i, k);
        assert FindCoef(tbl, i + k - 0x1_0000, 0).Some?;
      }
      if j: nat :| j + 0x1_0000 < i + |vs| && FindCoef(tbl, j, 0).Some? {
        OnceRound(tbl, i, j + 0x1_0000 - i);
      }
    }
  }

  lemma OnceRound(tbl: seq<Coef>, i: Half, k: nat)
    requires k < 0x1_0000
    ensures EntersTwice(tbl, i, k) <==> i + k >= 0x1_0000 && FindCoef(tbl, i + k - 0x1_0000, 0).Some?
  {
    if i + k >= 0x1_0000 {
      assert Slot(i, k) == i + k - 0x1_0000;
    }
    forall j: nat | j < k
      ensures Slot(i, j) != Slot(i, k)
    {
      SlotsDiffer(i, j, k);
    }
  }

  // ---- The same through command words ----

  const CLASS_SET_COEF: nat := 4
  const CLASS_SET_COEF_IDX: nat := 5
  const CLASS_GET_COEF: nat := 12

  /** The codec with another record at `r`. */
  function With(c: Codec, r: Ref, node: Node): Codec
    requires r < |c.nodes|
  {
    c.(nodes := c.nodes[r := node])
  }

  lemma CoefCommand(c: Codec, nid: nat, r: Ref, class_: nat, payload: Half, other: int)
    requires Valid(c) && 0 < nid < 0x80 && Find(c, nid) == Some(r)
    requires class_ in {CLASS_SET_COEF, CLASS_SET_COEF_IDX, CLASS_GET_COEF}
    ensures var (c', err, rc) := Command(c, ClassWord(nid, class_, payload), other);
      && err == 0 && Find(c', nid) == Some(r)
      && (class_ == CLASS_SET_COEF ==> c' == With(c, r, ProcCoefSet(c.nodes[r], payload)))
      && (class_ == CLASS_SET_COEF_IDX ==> c' == With(c, r, CoefIndexSet(c.nodes[r], payload)))
      && (class_ == CLASS_GET_COEF ==>
            var (node, v) := ProcCoefRead(c.nodes[r]); c' == With(c, r, node) && rc == Some(v))
  {
    var w := ClassWord(nid, class_, payload);
    ClassWordDecodes(nid, class_, payload);
    CommandSameWidgets(c, w, other);
    FindFromSame(c, Command(c, w, other).0, nid, 0);
  }

  function WriteWords(nid: nat, vs: seq<Half>): seq<nat> {
    seq(|vs|, k requires 0 <= k < |vs| => ClassWord(nid, CLASS_SET_COEF, vs[k]))
  }

  lemma {:induction false} WriteCommands(c: Codec, nid: nat, r: Ref, vs: seq<Half>, other: int)
    requires Valid(c) && 0 < nid < 0x80 && Find(c, nid) == Some(r)
    ensures Run(c, WriteWords(nid, vs), other) == With(c, r, WriteAll(c.nodes[r], vs))
    ensures Find(Run(c, WriteWords(nid, vs), other), nid) == Some(r)
    decreases |vs|
  {
    if vs == [] {
      assert WriteWords(nid, vs) == [];
      assert With(c, r, c.nodes[r]) == c;
    } else {
      assert WriteWords(nid, vs)[1..] == WriteWords(nid, vs[1..]);
      CoefCommand(c, nid, r, CLASS_SET_COEF, vs[0], other);
      var c1 := With(c, r, ProcCoefSet(c.nodes[r], vs[0]));
      WriteCommands(c1, nid, r, vs[1..], other);
      assert With(c1, r, WriteAll(c1.nodes[r], vs[1..])) == With(c, r, WriteAll(c.nodes[r], vs));
    }
  }

  /** The responses to `n` read commands. */
  function ReadResponses(c: Codec, nid: nat, n: nat, other: int): seq<Option<int>>
    requires Valid(c)
    decreases n
  {
    if n == 0 then []
    else
      var (c', _, rc) := Command(c, ClassWord(nid, CLASS_GET_COEF, 0), other);
      [rc] + ReadResponses(c', nid, n - 1, other)
  }

  lemma {:induction false} ReadCommands(c: Codec, nid: nat, r: Ref, n: nat, other: int)
    requires Valid(c) && 0 < nid < 0x80 && Find(c, nid) == Some(r)
    ensures var vs, rs := ReadAll(c.nodes[r], n).1, ReadResponses(c, nid, n, other);
      |vs| == |rs| == n && forall k :: 0 <= k < n ==> rs[k] == Some(vs[k] as int)
    decreases n
  {
    if n > 0 {
      CoefCommand(c, nid, r, CLASS_GET_COEF, 0, other);
      ReadCommands(With(c, r, ProcCoefRead(c.nodes[r]).0), nid, r, n - 1, other);
    }
  }

  /** A burst of commands to a reachable widget reads back what it wrote, unless a value that is not
    * 0 was lost.
    */
  lemma CommandBurst(c: Codec, nid: nat, i: Half, vs: seq<Half>, other: int)
    requires Valid(c) && 0 < nid < 0x80 && Find(c, nid).Some?
    ensures var select := ClassWord(nid, CLASS_SET_COEF_IDX, i);
      var rs := ReadResponses(Run(c, [select] + WriteWords(nid, vs) + [select], other), nid, |vs|, other);
      |rs| == |vs|
      && ((forall k :: 0 <= k < |vs| ==> rs[k] == Some(vs[k] as int))
          <==> forall k :: 0 <= k < |vs| && Lost(i, |vs|, k) ==> vs[k] == 0)
  {
    var r := Find(c, nid).value;
    var select := ClassWord(nid, CLASS_SET_COEF_IDX, i);
    var c1 := With(c, r, CoefIndexSet(c.nodes[r], i));
    CoefCommand(c, nid, r, CLASS_SET_COEF_IDX, i, other);
    WriteCommands(c1, nid, r, vs, other);
    var c2 := Run(c1, WriteWords(nid, vs), other);
    assert ([select] + WriteWords(nid, vs))[1..] == WriteWords(nid, vs);
    assert Run(c, [select] + WriteWords(nid, vs), other) == c2;
    RunSnoc(c, [select] + WriteWords(nid, vs), select, other);
    CoefCommand(c2, nid, r, CLASS_SET_COEF_IDX, i, other);
    var c3 := With(c2, r, CoefIndexSet(c2.nodes[r], i));
    ReadCommands(c3, nid, r, |vs|, other);
    BurstRoundTripExactly(c.nodes[r], i, vs);
  }

  // ---- Connection lists ----

  predicate ByteSized(conns: Conns) {
    forall k :: 0 <= k < |conns| ==> conns[k] < 0x100
  }

  function EntryOrZero(conns: Conns, k: nat): nat {
    if k < |conns| then conns[k] else 0
  }

  /** Byte `i` of a response. */
  function Unpacked(word: nat, i: nat): nat
    requires i < 4
  {
    if i == 0 then word % 0x100
    else if i == 1 then word / 0x100 % 0x100
    else if i == 2 then word / 0x1_0000 % 0x100
    else word / 0x100_0000 % 0x100
  }

  function Word(b0: nat, b1: nat, b2: nat, b3: nat): nat {
    b0 + 0x100 * b1 + 0x1_0000 * b2 + 0x100_0000 * b3
  }

  function Pow2(k: nat): nat {
    if k == 0 then 1 else 2 * Pow2(k - 1)
  }

  /** Words without a common bit: or-ing adds. */
  lemma {:induction false} OrAdds(a: nat, b: nat, k: nat)
    requires a < Pow2(k)
    ensures Or(a, b * Pow2(k)) == a + b * Pow2(k)
    decreases k
  {
    if k > 0 && a != 0 && b != 0 {
      var shifted := b * Pow2(k - 1);
      assert b * Pow2(k) == 2 * shifted;
      OrAdds(a / 2, b, k - 1);
    }
  }

  /** The weights of the four bytes. */
  predicate IsWeight(weight: nat) {
    weight == 1 || weight == 0x100 || weight == 0x1_0000 || weight == 0x100_0000
  }

  lemma WeightIsPower(weight: nat) returns (k: nat)
    requires IsWeight(weight)
    ensures weight == Pow2(k)
  {
    assert Pow2(8) == 0x100 && Pow2(16) == 0x1_0000 && Pow2(24) == 0x100_0000;
    k := if weight == 1 then 0 else if weight == 0x100 then 8 else if weight == 0x1_0000 then 16 else 24;
  }

  lemma ShiftedByte(b: Byte, weight: nat, val: nat)
    requires weight <= 0x100_0000 && val < weight
    ensures b * weight % 0x1_0000_0000 == b * weight && val + b * weight < 0x100 * weight
  {
    TimesByte(b, weight);
    Fits(b * weight);
  }

  lemma TimesByte(b: Byte, weight: nat)
    ensures 0 <= b * weight <= 0xff * weight
  {
    assert 0xff * weight - b * weight == (0xff - b) * weight;
  }

  lemma Fits(w: nat)
    requires w < 0x1_0000_0000
    ensures w % 0x1_0000_0000 == w
  {
  }

  /** One byte goes in above those that are there. */
  lemma PackedByte(conns: Conns, idx: nat, weight: nat, n: nat, val: nat)
    requires ByteSized(conns) && n > 0 && IsWeight(weight) && val < weight
    ensures PackFrom(conns, idx, weight, n, val)
         == PackFrom(conns, idx + 1, 0x100 * weight, n - 1, val + EntryOrZero(conns, idx) * weight)
    ensures val + EntryOrZero(conns, idx) * weight < 0x100 * weight
  {
    ShiftedByte(EntryOrZero(conns, idx), weight, val);
    if idx < |conns| {
      var k := WeightIsPower(weight);
      OrAdds(val, conns[idx], k);
    } else {
      assert EntryOrZero(conns, idx) * weight == 0;
    }
  }

  lemma PackedWord(conns: Conns, k: nat)
    requires ByteSized(conns)
    ensures PackFrom(conns, k, 1, 4, 0)
         == Word(EntryOrZero(conns, k), EntryOrZero(conns, k + 1), EntryOrZero(conns, k + 2), EntryOrZero(conns, k + 3))
  {
    var v1 := EntryOrZero(conns, k);
    var v2 := v1 + EntryOrZero(conns, k + 1) * 0x100;
    var v3 := v2 + EntryOrZero(conns, k + 2) * 0x1_0000;
    PackedByte(conns, k, 1, 4, 0);
    PackedByte(conns, k + 1, 0x100, 3, v1);
    PackedByte(conns, k + 2, 0x1_0000, 2, v2);
    PackedByte(conns, k + 3, 0x100_0000, 1, v3);
  }

  lemma UnpackWord(b0: Byte, b1: Byte, b2: Byte, b3: Byte, i: nat)
    requires i < 4
    ensures Unpacked(Word(b0, b1, b2, b3), i) == if i == 0 then b0 else if i == 1 then b1 else if i == 2 then b2 else b3
  {
    var w := Word(b0, b1, b2, b3);
    assert w / 0x100 == b1 + 0x100 * b2 + 0x1_0000 * b3;
    assert w / 0x1_0000 == b2 + 0x100 * b3;
    assert w / 0x100_0000 == b3;
  }

  /** A response holds four consecutive entries, with zeroes after the last. */
  lemma ConnectListEntry(node: Node, offset: Byte, i: nat)
    requires ByteSized(node.conns) && i < 4
    ensures Unpacked(ConnectList(node, offset), i) == EntryOrZero(node.conns, offset + i)
  {
    var b0: Byte, b1: Byte := EntryOrZero(node.conns, offset), EntryOrZero(node.conns, offset + 1);
    var b2: Byte, b3: Byte := EntryOrZero(node.conns, offset + 2), EntryOrZero(node.conns, offset + 3);
    ConnectListWord(node, offset);
    UnpackWord(b0, b1, b2, b3, i);
  }

  lemma ConnectListWord(node: Node, offset: Byte)
    requires ByteSized(node.conns)
    ensures ConnectList(node, offset)
         == Word(EntryOrZero(node.conns, offset), EntryOrZero(node.conns, offset + 1),
                 EntryOrZero(node.conns, offset + 2), EntryOrZero(node.conns, offset + 3))
  {
    assert offset % 0x100 == offset;
    PackedWord(node.conns, offset);
  }

  /** What a driver assembles from the responses at 0, 4, 8, ... */
  function ReadBack(node: Node, len: nat): seq<nat> {
    seq(len, k requires 0 <= k < len => Unpacked(ConnectList(node, k / 4 * 4), k % 4))
  }

  /** Reading up to the reported length gives back the whole list. */
  lemma ReadBackIsList(c: Codec, node: Node, other: int)
    requires Valid(c) && ByteSized(node.conns)
    ensures ReadBack(node, Parameter(c, node, 0x0e, other)) == node.conns
  {
    forall k | 0 <= k < |node.conns|
      ensures Unpacked(ConnectList(node, k / 4 * 4), k % 4) == node.conns[k]
    {
      ConnectListEntry(node, k / 4 * 4, k % 4);
    }
  }

  /** The same from the responses to command words, of which the first asks for the length. */
  lemma ConnectWordsReadBack(c: Codec, nid: nat, k: nat, other: int)
    requires Valid(c) && 0 < nid < 0x80 && Find(c, nid).Some?
    requires ByteSized(c.nodes[Find(c, nid).value].conns)
    ensures var conns := c.nodes[Find(c, nid).value].conns;
      && Command(c, VerbWord(nid, VERB_GET_PARAM, 0x0e), other) == (c, 0, Some(|conns|))
      && (k < |conns| ==>
            var (c', err, rc) := Command(c, VerbWord(nid, VERB_GET_CONNS, k / 4 * 4), other);
            c' == c && err == 0 && rc.Some? && rc.value >= 0 && Unpacked(rc.value, k % 4) == conns[k])
  {
    LengthWord(c, nid, other);
    var node := c.nodes[Find(c, nid).value];
    if k < |node.conns| {
      ConnectWord(c, nid, k / 4 * 4, other);
      ConnectListEntry(node, k / 4 * 4, k % 4);
    }
  }

  lemma LengthWord(c: Codec, nid: nat, other: int)
    requires Valid(c) && 0 < nid < 0x80 && Find(c, nid).Some?
    ensures Command(c, VerbWord(nid, VERB_GET_PARAM, 0x0e), other)
         == (c, 0, Some(|c.nodes[Find(c, nid).value].conns|))
  {
    VerbWordDecodes(nid, VERB_GET_PARAM, 0x0e);
    LengthCommand(c, VerbWord(nid, VERB_GET_PARAM, 0x0e), other);
  }

  lemma LengthCommand(c: Codec, cmd: nat, other: int)
    requires Valid(c) && Nid(cmd) != 0 && Find(c, Nid(cmd)).Some?
    requires cmd / 0x100 % 0x1000 == VERB_GET_PARAM && cmd % 0x100 == 0x0e
    ensures Command(c, cmd, other) == (c, 0, Some(|c.nodes[Find(c, Nid(cmd)).value].conns|))
  {
    var r := Find(c, Nid(cmd)).value;
    assert c.nodes[r := c.nodes[r]] == c.nodes;
  }

  lemma SameOffset(node: Node, cmd: nat, offset: Byte)
    requires cmd % 0x100 == offset
    ensures ConnectList(node, cmd) == ConnectList(node, offset)
  {
    assert offset % 0x100 == offset;
  }

  lemma ConnectWord(c: Codec, nid: nat, offset: Byte, other: int)
    requires Valid(c) && 0 < nid < 0x80 && Find(c, nid).Some?
    ensures Command(c, VerbWord(nid, VERB_GET_CONNS, offset), other)
         == (c, 0, Some(ConnectList(c.nodes[Find(c, nid).value], offset)))
  {
    VerbWordDecodes(nid, VERB_GET_CONNS, offset);
    ConnectCommand(c, VerbWord(nid, VERB_GET_CONNS, offset), offset, other);
  }

  lemma ConnectCommand(c: Codec, cmd: nat, offset: Byte, other: int)
    requires Valid(c) && Nid(cmd) != 0 && Find(c, Nid(cmd)).Some?
    requires cmd / 0x100 % 0x1000 == VERB_GET_CONNS && cmd % 0x100 == offset
    ensures Command(c, cmd, other) == (c, 0, Some(ConnectList(c.nodes[Find(c, Nid(cmd)).value], offset)))
  {
    var r := Find(c, Nid(cmd)).value;
    SameOffset(c.nodes[r], cmd, offset);
    assert c.nodes[r := c.nodes[r]] == c.nodes;
  }

  // ---- Selectors ----

  /** The command moves the selector of widget `r`. */
  predicate Selects(c: Codec, cmd: nat, r: Ref)
    requires r < |c.nodes|
  {
    && VerbOf(cmd) == Some(SetSel) && Nid(cmd) != 0 && Find(c, Nid(cmd)) == Some(r)
    && Type(c.nodes[r]) != AC_WID_AUD_MIX && Type(c.nodes[r]) != AC_WID_VOL_KNB
    && cmd % 0x100 < |c.nodes[r].conns|
  }

  function LastSelect(c: Codec, cmds: seq<nat>, r: Ref): Option<nat>
    requires r < |c.nodes|
  {
    if cmds == [] then None
    else if Selects(c, cmds[|cmds| - 1], r) then Some(cmds[|cmds| - 1] % 0x100)
    else LastSelect(c, cmds[..|cmds| - 1], r)
  }

  /** After any run the selector is where the last valid selection put it. */
  lemma {:induction false} RunOnSelector(c: Codec, cmds: seq<nat>, other: int, r: Ref)
    requires Valid(c) && r < |c.nodes|
    ensures var c' := Run(c, cmds, other);
      && r < |c'.nodes|
      && c'.nodes[r].currConn == match LastSelect(c, cmds, r) case Some(k) => k case None => c.nodes[r].currConn
    decreases |cmds|
  {
    if cmds != [] {
      var rest, cmd := cmds[..|cmds| - 1], cmds[|cmds| - 1];
      assert cmds == rest + [cmd];
      RunSnoc(c, rest, cmd, other);
      RunOnSelector(c, rest, other, r);
      RunSameWidgets(c, rest, other);
      var c1 := Run(c, rest, other);
      FindFromSame(c, c1, Nid(cmd), 0);
      assert SameWidget(c.nodes[r], c1.nodes[r]);
      CommandOnSelector(c1, cmd, other, r);
    }
  }

  lemma CommandOnSelector(c: Codec, cmd: nat, other: int, r: Ref)
    requires Valid(c) && r < |c.nodes|
    ensures var c' := Command(c, cmd, other).0;
      && r < |c'.nodes|
      && c'.nodes[r].currConn == if Selects(c, cmd, r) then cmd % 0x100 else c.nodes[r].currConn
  {
  }
}
