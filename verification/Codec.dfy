/** The emulated codec as the widgets see it: the records read and written by the
  * verb handlers and by the route search, and the lookup of a widget by its NID.
  */
module HdaCodec {
  import opened Options

  const HDA_MAX_NUM_CONNS: nat := 32

  // Widget types (bits 20..23 of the widget capabilities).
  const AC_WID_AUD_OUT: nat := 0
  const AC_WID_AUD_IN: nat := 1
  const AC_WID_AUD_MIX: nat := 2
  const AC_WID_PIN: nat := 4
  const AC_WID_POWER: nat := 5
  const AC_WID_VOL_KNB: nat := 6

  type Byte = b: nat | b < 256

  /** Bit `k` of the machine word `w`, for `weight == 2^k`. */
  predicate Bit(w: nat, weight: nat)
    requires weight > 0
  {
    w / weight % 2 == 1
  }

  /** Amplifier capabilities; `override` says that the widget has its own. */
  datatype AmpCaps = AmpCaps(ofs: Byte, nsteps: Byte, stepsize: Byte, mute: bool, override: bool)

  /** Left and right amplifier values of one index. */
  datatype AmpPair = AmpPair(left: Byte, right: Byte)

  type Half = h: nat | h < 0x1_0000

  /** One coefficient; both fields are 16 bits wide. */
  datatype Coef = Coef(idx: Half, value: Half)

  type AmpVals = s: seq<AmpPair> | |s| == HDA_MAX_NUM_CONNS
    witness seq(HDA_MAX_NUM_CONNS, _ => AmpPair(0, 0))

  /** A connection list, as long as the widget record has room for. */
  type Conns = s: seq<nat> | |s| <= HDA_MAX_NUM_CONNS

  datatype Node = Node(
    nid: nat,
    wcaps: nat,
    pinctl: nat,
    pinDefault: nat,
    ampInCaps: AmpCaps,
    ampOutCaps: AmpCaps,
    ampIn: AmpVals,
    ampOut: AmpVals,
    conns: Conns,
    currConn: nat,
    coefIdx: nat,
    coefTbl: seq<Coef>)

  function Type(node: Node): nat {
    node.wcaps / 0x10_0000 % 16
  }

  /** `nodes[..afgLen]` is the chain that starts at the audio function group; the
    * modem function group, when the codec has one, follows. A position in `nodes`
    * plays the part of a widget pointer.
    */
  datatype Codec = Codec(nodes: seq<Node>, afgLen: nat, pinAmpWorkaround: bool)

  predicate Valid(c: Codec) {
    1 <= c.afgLen <= |c.nodes|
  }

  type Ref = nat

  /** Declarative lookup: `r` is the first widget, in chain order, that has this NID. */
  predicate IsFirst(c: Codec, nid: nat, r: Ref) {
    r < |c.nodes| && c.nodes[r].nid == nid && forall q: Ref :: q < r ==> c.nodes[q].nid != nid
  }

  function FindFrom(c: Codec, nid: nat, r: Ref): (found: Option<Ref>)
    requires r <= |c.nodes|
    ensures found.Some? ==> r <= found.value < |c.nodes| && c.nodes[found.value].nid == nid
    ensures found.Some? ==> forall q: Ref :: r <= q < found.value ==> c.nodes[q].nid != nid
    ensures found.None? ==> forall q: Ref :: r <= q < |c.nodes| ==> c.nodes[q].nid != nid
    decreases |c.nodes| - r
  {
    if r == |c.nodes| then None
    else if c.nodes[r].nid == nid then Some(r)
    else FindFrom(c, nid, r + 1)
  }

  function Find(c: Codec, nid: nat): (found: Option<Ref>)
    ensures found.Some? ==> IsFirst(c, nid, found.value)
    ensures found.None? ==> forall q: Ref :: q < |c.nodes| ==> c.nodes[q].nid != nid
  {
    FindFrom(c, nid, 0)
  }

  /** No NID is used by two widgets. */
  predicate UniqueNids(c: Codec) {
    forall p: Ref, q: Ref :: p < q < |c.nodes| ==> c.nodes[p].nid != c.nodes[q].nid
  }

  lemma FindUnique(c: Codec, r: Ref)
    requires UniqueNids(c) && r < |c.nodes|
    ensures Find(c, c.nodes[r].nid) == Some(r)
  {
  }
}
