/** The widget chain that the parser builds behind the audio function group. */
module NodeList {
  import opened Options
  import opened HdaCodec
  import opened Runs

  /** The chain and the highest NID seen. NIDs are parsed from two hexadecimal digits. */
  datatype Chain = Chain(widgets: seq<Node>, numWidgets: nat)

  const AFG_NID: nat := 1
  const EMPTY := Chain([], 1)

  /** A new widget record: everything but its NID and capabilities is zero. */
  function Fresh(nid: Byte, wcaps: nat): Node {
    var none := AmpCaps(0, 0, 0, false, false);
    var amps: AmpVals := seq(HDA_MAX_NUM_CONNS, _ => AmpPair(0, 0));
    Node(nid, wcaps, 0, 0, none, none, amps, amps, [], 0, 0, [])
  }

  /** The first position from `k` on whose NID is not below `nid`. */
  function Position(widgets: seq<Node>, nid: nat, k: nat): (p: nat)
    requires k <= |widgets|
    ensures k <= p <= |widgets|
    ensures forall j :: k <= j < p ==> widgets[j].nid < nid
    ensures p < |widgets| ==> widgets[p].nid >= nid
    decreases |widgets| - k
  {
    if k == |widgets| || widgets[k].nid >= nid then k else Position(widgets, nid, k + 1)
  }

  function Created(c: Chain, nid: Byte, wcaps: nat): (Chain, bool) {
    var c' := c.(numWidgets := if nid > c.numWidgets then nid else c.numWidgets);
    var p := Position(c.widgets, nid, 0);
    if p < |c.widgets| && c.widgets[p].nid == nid then (c', false)
    else (c'.(widgets := c.widgets[..p] + [Fresh(nid, wcaps)] + c.widgets[p..]), true)
  }

  /** The response to the node count parameter of the root, which starts at the function group, or of
    * a widget: the number of NIDs in the low half, the first NID in the high half.
    */
  function NodeCountWord(c: Chain, root: bool): int {
    if root then c.numWidgets + 0x1_0000
    else if c.widgets == [] then 0
    else c.numWidgets - c.widgets[0].nid + 1 + 0x1_0000 * c.widgets[0].nid
  }

  class Parser {
    var widgets: seq<Node>
    var numWidgets: nat

    function View(): Chain
      reads this
    {
      Chain(widgets, numWidgets)
    }

    constructor ()
      ensures View() == EMPTY
    {
      widgets, numWidgets := [], 1;
    }

    method CreateNode(nid: Byte, wcaps: nat) returns (created: bool)
      modifies this
      ensures (View(), created) == Created(old(View()), nid, wcaps)
    {
      if nid > numWidgets {
        numWidgets := nid;
      }
      var p := 0;
      while p < |widgets|
        invariant p <= |widgets|
        invariant Position(widgets, nid, 0) == Position(widgets, nid, p)
      {
        if widgets[p].nid >= nid {
          if widgets[p].nid == nid {
            return false;
          }
          break;
        }
        p := p + 1;
      }
      widgets := widgets[..p] + [Fresh(nid, wcaps)] + widgets[p..];
      return true;
    }

    method ParNodeCount(root: bool) returns (word: int)
      ensures word == NodeCountWord(View(), root)
    {
      if root {
        return numWidgets + 0x1_0000;
      }
      if |widgets| == 0 {
        return 0;
      }
      var startNid := widgets[0].nid;
      word := numWidgets - startNid + 1 + 0x1_0000 * startNid;
    }
  }

  // ---- Runs ----

  function Step(c: Chain, request: (Byte, nat)): Chain {
    Created(c, request.0, request.1).0
  }

  function Run(c: Chain, nids: seq<(Byte, nat)>): Chain {
    Folded(Step, c, nids)
  }

  function NidSet(widgets: seq<Node>): set<nat> {
    set k | 0 <= k < |widgets| :: widgets[k].nid
  }

  function Requested(nids: seq<(Byte, nat)>): set<nat> {
    set k | 0 <= k < |nids| :: nids[k].0
  }

  ghost predicate Ascending(widgets: seq<Node>) {
    forall i, j :: 0 <= i < j < |widgets| ==> widgets[i].nid < widgets[j].nid
  }

  /** `m` is the greatest member of `s`, or 1 if that is smaller. */
  ghost predicate IsTop(s: set<nat>, m: nat) {
    m >= 1 && (forall x :: x in s ==> x <= m) && (m == 1 || m in s)
  }

  ghost predicate Sound(c: Chain) {
    Ascending(c.widgets) && IsTop(NidSet(c.widgets), c.numWidgets)
      && forall k :: 0 <= k < |c.widgets| ==> c.widgets[k].nid < 0x100
  }

  lemma TopAdded(s: set<nat>, m: nat, x: nat)
    requires IsTop(s, m)
    ensures IsTop(s + {x}, if x > m then x else m)
  {
  }

  lemma InsertedAscending(widgets: seq<Node>, p: nat, node: Node)
    requires Ascending(widgets) && p <= |widgets|
    requires forall j :: 0 <= j < p ==> widgets[j].nid < node.nid
    requires p < |widgets| ==> node.nid < widgets[p].nid
    ensures Ascending(widgets[..p] + [node] + widgets[p..])
  {
  }

  lemma CreatedExactly(c: Chain, nid: Byte, wcaps: nat)
    requires Ascending(c.widgets)
    ensures Created(c, nid, wcaps).1 <==> nid !in NidSet(c.widgets)
  {
    var p := Position(c.widgets, nid, 0);
    if p < |c.widgets| && c.widgets[p].nid != nid {
      assert forall k :: p < k < |c.widgets| ==> c.widgets[p].nid < c.widgets[k].nid;
    }
  }

  lemma CreatedSound(c: Chain, nid: Byte, wcaps: nat)
    requires Sound(c)
    ensures var c' := Created(c, nid, wcaps).0; Sound(c') && NidSet(c'.widgets) == NidSet(c.widgets) + {nid}
  {
    CreatedExactly(c, nid, wcaps);
    TopAdded(NidSet(c.widgets), c.numWidgets, nid);
    var p := Position(c.widgets, nid, 0);
    var c' := Created(c, nid, wcaps).0;
    if nid in NidSet(c.widgets) {
      assert NidSet(c.widgets) + {nid} == NidSet(c.widgets);
    } else {
      InsertedAscending(c.widgets, p, Fresh(nid, wcaps));
      InsertedNids(c.widgets, p, Fresh(nid, wcaps));
      assert forall k :: 0 <= k < |c'.widgets| ==> c'.widgets[k].nid in NidSet(c'.widgets);
    }
  }

  /** The new record has the requested NID and capabilities; the others stay as they are. */
  lemma CreatedKeepsOthers(c: Chain, nid: Byte, wcaps: nat)
    ensures var (c', created) := Created(c, nid, wcaps);
      multiset(c'.widgets) == if created then multiset(c.widgets) + multiset{Fresh(nid, wcaps)} else multiset(c.widgets)
  {
    var p := Position(c.widgets, nid, 0);
    assert c.widgets == c.widgets[..p] + c.widgets[p..];
  }

  lemma InsertedNids(widgets: seq<Node>, p: nat, node: Node)
    requires p <= |widgets|
    ensures NidSet(widgets[..p] + [node] + widgets[p..]) == NidSet(widgets) + {node.nid}
  {
    var widgets' := widgets[..p] + [node] + widgets[p..];
    assert widgets'[p] == node;
    forall k | 0 <= k < |widgets|
      ensures widgets[k].nid in NidSet(widgets')
    {
      assert widgets[k] == widgets'[if k < p then k else k + 1];
    }
  }

  lemma RequestedCons(nids: seq<(Byte, nat)>)
    requires nids != []
    ensures Requested(nids) == {nids[0].0 as nat} + Requested(nids[1..])
  {
    forall k | 0 <= k < |nids|
      ensures nids[k].0 in {nids[0].0} + Requested(nids[1..])
    {
      if k > 0 {
        assert nids[1..][k - 1] == nids[k];
      }
    }
  }

  /** Any run of creations leaves a strictly ascending chain of exactly the requested NIDs. */
  lemma {:induction false} RunSound(c: Chain, nids: seq<(Byte, nat)>)
    requires Sound(c)
    ensures var c' := Run(c, nids); Sound(c') && NidSet(c'.widgets) == NidSet(c.widgets) + Requested(nids)
    decreases |nids|
  {
    if nids != [] {
      var c1 := Created(c, nids[0].0, nids[0].1).0;
      CreatedSound(c, nids[0].0, nids[0].1);
      RunSound(c1, nids[1..]);
      RequestedCons(nids);
      assert NidSet(c1.widgets) + Requested(nids[1..]) == NidSet(c.widgets) + Requested(nids);
    }
  }

  /** Which NIDs the chain has, and in which order, depends on the set of those requested alone. */
  lemma {:induction false} SameNidsSameOrder(a: seq<Node>, b: seq<Node>, k: nat)
    requires Ascending(a) && Ascending(b) && NidSet(a) == NidSet(b) && k < |a|
    ensures k < |b| && a[k].nid == b[k].nid
    decreases k
  {
    if k > 0 {
      SameNidsSameOrder(a, b, k - 1);
    }
    assert a[k].nid in NidSet(b);
    var j :| 0 <= j < |b| && b[j].nid == a[k].nid;
    if j > k {
      assert b[k].nid in NidSet(a);
      var i :| 0 <= i < |a| && a[i].nid == b[k].nid;
      assert i < k;
      SameNidsSameOrder(a, b, i);
    }
  }

  /** The capabilities that the first request for a NID brings. */
  function FirstCaps(nids: seq<(Byte, nat)>, nid: nat): Option<nat> {
    if nids == [] then None
    else if nids[0].0 == nid then Some(nids[0].1)
    else FirstCaps(nids[1..], nid)
  }

  /** Every record of the chain is an old one, or a fresh one with the capabilities of the first
    * request for its NID.
    */
  lemma {:induction false} FirstRequestWins(c: Chain, nids: seq<(Byte, nat)>, k: nat)
    requires Sound(c) && k < |Run(c, nids).widgets|
    ensures var w := Run(c, nids).widgets[k];
      if w.nid in NidSet(c.widgets) then w in c.widgets
      else FirstCaps(nids, w.nid).Some? && w.nid < 0x100 && w == Fresh(w.nid, FirstCaps(nids, w.nid).value)
    decreases |nids|
  {
    if nids != [] {
      var c1 := Created(c, nids[0].0, nids[0].1).0;
      CreatedSound(c, nids[0].0, nids[0].1);
      CreatedExactly(c, nids[0].0, nids[0].1);
      CreatedKeepsOthers(c, nids[0].0, nids[0].1);
      FirstRequestWins(c1, nids[1..], k);
      var w := Run(c, nids).widgets[k];
      if w in c1.widgets {
        assert w in multiset(c1.widgets);
        OneOrFresh(c, nids[0].0, nids[0].1, w);
      }
    } else {
      assert Run(c, nids).widgets[k].nid in NidSet(c.widgets);
    }
  }

  lemma OneOrFresh(c: Chain, nid: Byte, wcaps: nat, w: Node)
    requires w in Created(c, nid, wcaps).0.widgets
    ensures w in c.widgets || (Created(c, nid, wcaps).1 && w == Fresh(nid, wcaps))
    ensures w in c.widgets ==> w.nid in NidSet(c.widgets)
  {
    var p := Position(c.widgets, nid, 0);
    assert c.widgets == c.widgets[..p] + c.widgets[p..];
    if w in c.widgets {
      var i :| 0 <= i < |c.widgets| && c.widgets[i] == w;
      assert c.widgets[i].nid in NidSet(c.widgets);
    }
  }

  // ---- A file with a duplicate ----

  /** The parser stops at the first NID that it has met before; `false` tells so. */
  function Parsed(c: Chain, nids: seq<(Byte, nat)>): (Chain, bool)
    decreases |nids|
  {
    if nids == [] then (c, true)
    else
      var (c', created) := Created(c, nids[0].0, nids[0].1);
      if created then Parsed(c', nids[1..]) else (c', false)
  }

  /** Requests that name no NID twice, and none of the chain. */
  ghost predicate AllNew(c: Chain, nids: seq<(Byte, nat)>) {
    forall k :: 0 <= k < |nids| ==> nids[k].0 !in NidSet(c.widgets) && forall j :: 0 <= j < k ==> nids[j].0 != nids[k].0
  }

  lemma AllNewNext(c: Chain, nids: seq<(Byte, nat)>)
    requires Sound(c) && nids != [] && nids[0].0 !in NidSet(c.widgets)
    ensures AllNew(c, nids) <==> AllNew(Created(c, nids[0].0, nids[0].1).0, nids[1..])
  {
    var c' := Created(c, nids[0].0, nids[0].1).0;
    CreatedSound(c, nids[0].0, nids[0].1);
    if AllNew(c', nids[1..]) {
      forall k | 0 <= k < |nids|
        ensures nids[k].0 !in NidSet(c.widgets) && forall j :: 0 <= j < k ==> nids[j].0 != nids[k].0
      {
        if k > 0 {
          assert nids[1..][k-1] == nids[k];
          assert forall j :: 1 <= j < k ==> nids[j] == nids[1..][j-1];
        }
      }
    }
  }

  lemma {:induction false} ParsedExactly(c: Chain, nids: seq<(Byte, nat)>)
    requires Sound(c)
    ensures Parsed(c, nids).1 <==> AllNew(c, nids)
    decreases |nids|
  {
    if nids != [] {
      CreatedExactly(c, nids[0].0, nids[0].1);
      if nids[0].0 !in NidSet(c.widgets) {
        CreatedSound(c, nids[0].0, nids[0].1);
        AllNewNext(c, nids);
        ParsedExactly(Created(c, nids[0].0, nids[0].1).0, nids[1..]);
      }
    }
  }

  lemma ParsedCons(c: Chain, nids: seq<(Byte, nat)>, n: nat)
    requires nids != [] && n < |nids| && Created(c, nids[0].0, nids[0].1).1
    ensures var c' := Created(c, nids[0].0, nids[0].1).0;
      && Parsed(c, nids[..n+1]) == Parsed(c', nids[1..][..n])
      && Run(c, nids[..n+1]) == Run(c', nids[1..][..n])
  {
    assert nids[..n+1][0] == nids[0] && nids[..n+1][1..] == nids[1..][..n];
  }

  lemma {:induction false} ParsedPrefix(c: Chain, nids: seq<(Byte, nat)>) returns (n: nat)
    ensures n <= |nids| && Parsed(c, nids).0 == Run(c, nids[..n])
    ensures Parsed(c, nids).1 ==> n == |nids|
    ensures !Parsed(c, nids).1 ==> n > 0 && Parsed(c, nids[..n-1]).1 && !Parsed(c, nids[..n]).1
    decreases |nids|
  {
    n := 0;
    if nids != [] {
      var (c', created) := Created(c, nids[0].0, nids[0].1);
      if created {
        var k := ParsedPrefix(c', nids[1..]);
        n := k + 1;
        ParsedCons(c, nids, k);
        if k > 0 {
          ParsedCons(c, nids, k - 1);
        }
      } else {
        n := 1;
        assert nids[..1][0] == nids[0] && Run(c, nids[..1]) == Run(c', nids[..1][1..]);
      }
    }
  }

  /** The parser reads the whole file exactly if there is no duplicate; else the chain is that of the
    * requests up to the first.
    */
  lemma ParsedStops(c: Chain, nids: seq<(Byte, nat)>) returns (n: nat)
    requires Sound(c)
    ensures n <= |nids| && Parsed(c, nids).0 == Run(c, nids[..n])
    ensures Parsed(c, nids).1 <==> AllNew(c, nids)
    ensures if Parsed(c, nids).1 then n == |nids| else n > 0 && AllNew(c, nids[..n-1]) && !AllNew(c, nids[..n])
  {
    n := ParsedPrefix(c, nids);
    ParsedExactly(c, nids);
    ParsedExactly(c, nids[..n]);
    if n > 0 {
      ParsedExactly(c, nids[..n-1]);
    }
  }

  /** Two sequences of requests build the same chain exactly when the same NIDs are requested in both,
    * each with the same capabilities the first time.
    */
  lemma SameChainExactly(a: seq<(Byte, nat)>, b: seq<(Byte, nat)>)
    ensures Run(EMPTY, a).widgets == Run(EMPTY, b).widgets
       <==> Requested(a) == Requested(b) && forall nid :: nid in Requested(a) ==> FirstCaps(a, nid) == FirstCaps(b, nid)
  {
    RunSound(EMPTY, a);
    RunSound(EMPTY, b);
    var wa, wb := Run(EMPTY, a).widgets, Run(EMPTY, b).widgets;
    forall k | 0 <= k < |wa|
      ensures FirstCaps(a, wa[k].nid) == Some(wa[k].wcaps) && wa[k] == Fresh(wa[k].nid, wa[k].wcaps)
    {
      FirstRequestWins(EMPTY, a, k);
    }
    forall k | 0 <= k < |wb|
      ensures FirstCaps(b, wb[k].nid) == Some(wb[k].wcaps) && wb[k] == Fresh(wb[k].nid, wb[k].wcaps)
    {
      FirstRequestWins(EMPTY, b, k);
    }
    if Requested(a) == Requested(b) {
      SameLength(wa, wb);
      forall k | 0 <= k < |wa|
        ensures wa[k].nid == wb[k].nid && wa[k].nid in Requested(a)
      {
        SameNidsSameOrder(wa, wb, k);
        assert wa[k].nid in NidSet(wa);
      }
    }
    if wa == wb {
      assert NidSet(wa) == NidSet(wb);
      forall nid | nid in Requested(a)
        ensures FirstCaps(a, nid) == FirstCaps(b, nid)
      {
        var k :| 0 <= k < |wa| && wa[k].nid == nid;
      }
    }
  }

  lemma SameLength(a: seq<Node>, b: seq<Node>)
    requires Ascending(a) && Ascending(b) && NidSet(a) == NidSet(b)
    ensures |a| == |b|
  {
    if |a| > 0 {
      SameNidsSameOrder(a, b, |a| - 1);
    }
    if |b| > 0 {
      SameNidsSameOrder(b, a, |b| - 1);
    }
  }

  /** The reported range starts at the least NID and ends at the greatest, 1 counting as requested.
    * It is exact precisely when some NID other than 0 was.
    */
  lemma RangeIsExact(nids: seq<(Byte, nat)>)
    requires nids != []
    ensures var c := Run(EMPTY, nids); var word := NodeCountWord(c, false);
      var first, last := word / 0x1_0000, word / 0x1_0000 + word % 0x1_0000 - 1;
      && first in Requested(nids)
      && (forall nid :: nid in Requested(nids) ==> first <= nid <= last)
      && (last in Requested(nids) <==> exists nid :: nid in Requested(nids) && nid != 0)
  {
    RunSound(EMPTY, nids);
    var c := Run(EMPTY, nids);
    assert nids[0].0 in Requested(nids);
    assert c.widgets != [];
    var start := c.widgets[0].nid;
    assert start in NidSet(c.widgets);
    assert NodeCountWord(c, false) / 0x1_0000 == start;
  }

  /** The range that the root reports starts at the function group and ends at the greatest NID. */
  lemma RootRangeIsExact(nids: seq<(Byte, nat)>)
    ensures var word := NodeCountWord(Run(EMPTY, nids), true); var last := word % 0x1_0000;
      && word / 0x1_0000 == AFG_NID
      && (forall nid :: nid in Requested(nids) ==> nid <= last)
      && (last == AFG_NID || last in Requested(nids))
  {
    RunSound(EMPTY, nids);
    var c := Run(EMPTY, nids);
    if c.numWidgets != 1 {
      var k :| 0 <= k < |c.widgets| && c.widgets[k].nid == c.numWidgets;
    }
    assert c.numWidgets < 0x1_0000;
  }

  /** A new record holds its NID and capabilities, and zeroes. */
  lemma FreshPlainly(nid: Byte, wcaps: nat)
    ensures var n := Fresh(nid, wcaps);
      && n.nid == nid && n.wcaps == wcaps && n.pinctl == 0 && n.pinDefault == 0
      && n.ampInCaps == n.ampOutCaps == AmpCaps(0, 0, 0, false, false)
      && (forall k :: 0 <= k < HDA_MAX_NUM_CONNS ==> n.ampIn[k] == n.ampOut[k] == AmpPair(0, 0))
      && n.conns == [] && n.currConn == 0 && n.coefIdx == 0 && n.coefTbl == []
  {
  }

  /** Without widgets there is no range. */
  lemma NoRange()
    ensures NodeCountWord(EMPTY, false) == 0 && NodeCountWord(EMPTY, true) == 0x1_0001
  {
  }

  // ---- The codec that results ----

  /** The modem function group has a chain of its own, of one record; its NID is 0 if there is none. */
  function CodecOf(afg: Node, c: Chain, mfg: Node, workaround: bool): Codec {
    Codec([afg] + c.widgets + (if mfg.nid != 0 then [mfg] else []), 1 + |c.widgets|, workaround)
  }

  lemma CodecOfNodes(afg: Node, nids: seq<(Byte, nat)>, mfg: Node, workaround: bool)
    ensures var c := Run(EMPTY, nids); var codec := CodecOf(afg, c, mfg, workaround); var n := |c.widgets|;
      && NidSet(c.widgets) == Requested(nids) && Ascending(c.widgets)
      && |codec.nodes| == n + (if mfg.nid != 0 then 2 else 1) && codec.afgLen == n + 1
      && codec.pinAmpWorkaround == workaround
      && codec.nodes[0] == afg && (mfg.nid != 0 ==> codec.nodes[n+1] == mfg)
      && forall k :: 1 <= k <= n ==> codec.nodes[k] == c.widgets[k-1] && codec.nodes[k].nid in Requested(nids)
  {
    RunSound(EMPTY, nids);
    var c := Run(EMPTY, nids);
    assert forall k :: 0 <= k < |c.widgets| ==> c.widgets[k].nid in NidSet(c.widgets);
  }

  /** The lookup finds every requested widget and the two function groups, and nothing else. A group
    * hides a widget of its NID, and a widget hides the modem group.
    */
  lemma ReachableExactly(afg: Node, nids: seq<(Byte, nat)>, mfg: Node, workaround: bool, nid: nat)
    requires afg.nid == AFG_NID
    ensures var codec := CodecOf(afg, Run(EMPTY, nids), mfg, workaround); var found := Find(codec, nid);
      && (found.Some? <==> nid == AFG_NID || nid in Requested(nids) || (nid != 0 && nid == mfg.nid))
      && (nid == AFG_NID ==> found == Some(0))
      && (nid != AFG_NID && nid in Requested(nids) ==> found.Some? && 0 < found.value < codec.afgLen)
  {
    CodecOfNodes(afg, nids, mfg, workaround);
    var c := Run(EMPTY, nids);
    var codec := CodecOf(afg, c, mfg, workaround);
    if nid in Requested(nids) {
      assert nid in NidSet(c.widgets);
      var k :| 0 <= k < |c.widgets| && c.widgets[k].nid == nid;
      assert codec.nodes[k+1].nid == nid;
    }
  }

  /** A parsed codec meets the requirement of the route theorems unless a function group shares its
    * NID with a widget or with the other.
    */
  lemma ParsedNidsUnique(afg: Node, nids: seq<(Byte, nat)>, mfg: Node, workaround: bool)
    requires afg.nid == AFG_NID
    ensures UniqueNids(CodecOf(afg, Run(EMPTY, nids), mfg, workaround))
       <==> && AFG_NID !in Requested(nids)
            && (mfg.nid == 0 || (mfg.nid != AFG_NID && mfg.nid !in Requested(nids)))
  {
    CodecOfNodes(afg, nids, mfg, workaround);
    var c := Run(EMPTY, nids);
    var codec := CodecOf(afg, c, mfg, workaround);
    forall nid | nid in Requested(nids)
      ensures exists k :: 1 <= k <= |c.widgets| && codec.nodes[k].nid == nid
    {
      assert nid in NidSet(c.widgets);
      var k :| 0 <= k < |c.widgets| && c.widgets[k].nid == nid;
      assert codec.nodes[k+1].nid == nid;
    }
    if UniqueNids(codec) {
      assert mfg.nid != 0 ==> codec.nodes[0].nid != codec.nodes[|c.widgets| + 1].nid;
    }
  }
}
