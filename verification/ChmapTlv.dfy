/** Channel maps of a PCM stream, written into a user buffer as a container of TLV items. */
module ChmapTlv {
  import opened Options
  import opened Sequences

  const ENOMEM: int := 12
  const TLVT_CONTAINER: nat := 0
  const TLVT_CHMAP_FIXED: nat := 0x101

  const MAX_MAP: nat := 15

  /** The positions of the channels of one map; the table of maps ends at one without channels. */
  type Chmap = m: seq<nat> | 1 <= |m| <= MAX_MAP witness [0]

  /** `channelMask` holds the positions of the bits that are set in the mask. */
  datatype Info = Info(maxChannels: nat, channelMask: set<nat>)

  predicate ValidChannels(info: Info, ch: nat) {
    ch <= info.maxChannels && (info.channelMask == {} || ch in info.channelMask)
  }

  /** The valid ones among the first `n` maps, in order. */
  function Filtered(info: Info, chmap: seq<Chmap>, n: nat): seq<Chmap>
    requires n <= |chmap|
  {
    if n == 0 then []
    else if ValidChannels(info, |chmap[n-1]|) then Filtered(info, chmap, n - 1) + [chmap[n-1]]
    else Filtered(info, chmap, n - 1)
  }

  // ---- The format ----

  function Bytes(maps: seq<Chmap>): nat {
    if maps == [] then 0 else 8 + 4 * |maps[0]| + Bytes(maps[1..])
  }

  function Item(map_: Chmap): seq<nat> {
    [TLVT_CHMAP_FIXED, 4 * |map_|] + map_
  }

  function Items(maps: seq<Chmap>): (words: seq<nat>)
    ensures 4 * |words| == Bytes(maps)
  {
    if maps == [] then [] else Item(maps[0]) + Items(maps[1..])
  }

  function Encoded(maps: seq<Chmap>): seq<nat> {
    [TLVT_CONTAINER, Bytes(maps)] + Items(maps)
  }

  lemma {:induction false} ItemsSnoc(maps: seq<Chmap>, map_: Chmap)
    ensures Items(maps + [map_]) == Items(maps) + Item(map_)
    ensures Bytes(maps + [map_]) == Bytes(maps) + 8 + 4 * |map_|
    decreases |maps|
  {
    if maps == [] {
      assert Items([map_]) == Item(map_) + Items([]);
    } else {
      assert (maps + [map_])[1..] == maps[1..] + [map_];
      ItemsSnoc(maps[1..], map_);
      assert Item(maps[0]) + (Items(maps[1..]) + Item(map_)) == (Item(maps[0]) + Items(maps[1..])) + Item(map_);
    }
  }

  /** Later maps only add bytes. */
  lemma {:induction false} BytesGrow(info: Info, chmap: seq<Chmap>, k: nat, n: nat)
    requires k <= n <= |chmap|
    ensures Bytes(Filtered(info, chmap, k)) <= Bytes(Filtered(info, chmap, n))
    decreases n
  {
    if k < n {
      BytesGrow(info, chmap, k, n - 1);
      ItemsSnoc(Filtered(info, chmap, n - 1), chmap[n-1]);
    }
  }

  // ---- The writer ----

  /** One map at `dst`, with `size` bytes of the buffer left; `ok` is false when they do not do. */
  method PutMap(map_: Chmap, tlv: array<nat>, dst0: nat, size0: nat) returns (ok: bool, dst: nat, size: nat)
    requires dst0 <= tlv.Length && 4 * (tlv.Length - dst0) <= size0 < 4 * (tlv.Length - dst0) + 4
    modifies tlv
    ensures ok <==> size0 >= 8 + 4 * |map_|
    ensures forall k :: 0 <= k < dst0 ==> tlv[k] == old(tlv[k])
    ensures ok ==> dst == dst0 + 2 + |map_| <= tlv.Length && size == size0 - (8 + 4 * |map_|)
    ensures ok ==> forall k :: dst0 <= k < tlv.Length ==>
      tlv[k] == if k < dst then Item(map_)[k - dst0] else old(tlv[k])
  {
    ok, dst, size := false, dst0, size0;
    var chsBytes := 4 * |map_|;
    if size < 8 {
      return;
    }
    tlv[dst], tlv[dst + 1] := TLVT_CHMAP_FIXED, chsBytes;
    dst, size := dst + 2, size - 8;
    if size < chsBytes {
      return;
    }
    size := size - chsBytes;
    for c := 0 to |map_|
      invariant dst == dst0 + 2 + c
      invariant tlv[dst0] == TLVT_CHMAP_FIXED && tlv[dst0 + 1] == chsBytes
      invariant forall k :: 0 <= k < c ==> tlv[dst0 + 2 + k] == map_[k]
      invariant forall k :: (0 <= k < dst0 || dst <= k < tlv.Length) ==> tlv[k] == old(tlv[k])
    {
      tlv[dst] := map_[c];
      dst := dst + 1;
    }
    ok := true;
  }

  /** `size0` is the room of the buffer in bytes. The writer succeeds exactly when everything fits;
    * otherwise it stops inside the buffer and the container has no length yet.
    */
  method PcmChmapCtlTlv(info: Info, chmap: seq<Chmap>, size0: nat, tlv: array<nat>) returns (err: int)
    requires tlv.Length == size0 / 4
    modifies tlv
    ensures err == 0 || err == -12
    ensures err == 0 <==> size0 >= 8 + Bytes(Filtered(info, chmap, |chmap|))
    ensures err == 0 ==> var words := Encoded(Filtered(info, chmap, |chmap|));
      words <= tlv[..] && forall k :: |words| <= k < tlv.Length ==> tlv[k] == old(tlv[k])
    ensures err != 0 && size0 >= 8 ==> tlv[1] == old(tlv[1])
  {
    var size := size0;
    if size < 8 {
      return -ENOMEM;
    }
    tlv[0] := TLVT_CONTAINER;
    size := size - 8;
    var dst: nat, count := 2, 0;
    ghost var words := [];
    for k := 0 to |chmap|
      invariant words == Items(Filtered(info, chmap, k)) && count == Bytes(Filtered(info, chmap, k))
      invariant dst == 2 + |words| <= tlv.Length && size0 - size == 4 * dst
      invariant forall j :: 0 <= j < |words| ==> tlv[2 + j] == words[j]
      invariant tlv[0] == TLVT_CONTAINER && tlv[1] == old(tlv[1])
      invariant forall j :: dst <= j < tlv.Length ==> tlv[j] == old(tlv[j])
    {
      var map_ := chmap[k];
      if !ValidChannels(info, |map_|) {
        continue;
      }
      BytesGrow(info, chmap, k + 1, |chmap|);
      ItemsSnoc(Filtered(info, chmap, k), map_);
      var ok;
      ok, dst, size := PutMap(map_, tlv, dst, size);
      if !ok {
        return -ENOMEM;
      }
      words := words + Item(map_);
      count := count + 8 + 4 * |map_|;
    }
    tlv[1] := count;
    assert Encoded(Filtered(info, chmap, |chmap|)) <= tlv[..];
    return 0;
  }

  // ---- A reader ----

  /** The maps in the first `bytes` bytes; `None` for anything that is not a list of whole items. */
  function ReadItems(words: seq<nat>, bytes: nat): Option<seq<seq<nat>>>
    decreases bytes
  {
    if bytes == 0 then Some([])
    else if |words| < 2 || words[0] != TLVT_CHMAP_FIXED || words[1] % 4 != 0 then None
    else if 8 + words[1] > bytes || 2 + words[1] / 4 > |words| then None
    else
      match ReadItems(words[2 + words[1] / 4..], bytes - 8 - words[1])
      case None => None
      case Some(maps) => Some([words[2..2 + words[1] / 4]] + maps)
  }

  function Read(words: seq<nat>): Option<seq<seq<nat>>> {
    if |words| < 2 || words[0] != TLVT_CONTAINER then None else ReadItems(words[2..], words[1])
  }

  lemma ReadOne(m: Chmap, rest: seq<nat>, bytes: nat, maps: seq<seq<nat>>)
    requires ReadItems(rest, bytes) == Some(maps)
    ensures ReadItems(Item(m) + rest, 8 + 4 * |m| + bytes) == Some([m] + maps)
  {
    var words := Item(m) + rest;
    assert words[0] == TLVT_CHMAP_FIXED && words[1] == 4 * |m|;
    assert words[2..2 + |m|] == m && words[2 + |m|..] == rest;
  }

  lemma HeadAndRest(maps: seq<Chmap>)
    requires maps != []
    ensures [maps[0]] + maps[1..] == maps
  {
  }

  lemma {:induction false} ItemsRoundTrip(maps: seq<Chmap>, junk: seq<nat>, words: seq<nat>, bytes: nat)
    requires words == Items(maps) + junk && bytes == Bytes(maps)
    ensures ReadItems(words, bytes) == Some(maps)
    decreases |maps|
  {
    if maps != [] {
      var rest, later := Items(maps[1..]) + junk, Bytes(maps[1..]);
      ItemsRoundTrip(maps[1..], junk, rest, later);
      Associative(Item(maps[0]), Items(maps[1..]), junk);
      HeadAndRest(maps);
      ReadOne(maps[0], rest, later, maps[1..]);
    }
  }

  /** A reader of any buffer that starts with what the writer writes gets exactly the valid maps. */
  lemma TlvRoundTrip(info: Info, chmap: seq<Chmap>, buffer: seq<nat>)
    requires Encoded(Filtered(info, chmap, |chmap|)) <= buffer
    ensures Read(buffer) == Some(Filtered(info, chmap, |chmap|))
  {
    var maps := Filtered(info, chmap, |chmap|);
    var junk := buffer[|Encoded(maps)|..];
    assert buffer == Encoded(maps) + junk;
    assert buffer[2..] == Items(maps) + junk;
    ItemsRoundTrip(maps, junk, buffer[2..], Bytes(maps));
  }

  /** What the writer keeps: the maps of the table that are valid, in the order of the table. */
  lemma {:induction false} FilteredExactly(info: Info, chmap: seq<Chmap>, n: nat, m: Chmap)
    requires n <= |chmap|
    ensures multiset(Filtered(info, chmap, n))[m]
         == if |m| <= info.maxChannels && (info.channelMask == {} || |m| in info.channelMask)
            then multiset(chmap[..n])[m] else 0
  {
    if n > 0 {
      FilteredExactly(info, chmap, n - 1, m);
      assert chmap[..n] == chmap[..n-1] + [chmap[n-1]];
    }
  }

  /** And it keeps their order. */
  lemma {:induction false} FilteredInOrder(info: Info, chmap: seq<Chmap>, n: nat) returns (places: seq<nat>)
    requires n <= |chmap|
    ensures |places| == |Filtered(info, chmap, n)|
    ensures forall k :: 0 <= k < |places| ==> places[k] < n && Filtered(info, chmap, n)[k] == chmap[places[k]]
    ensures forall j, k :: 0 <= j < k < |places| ==> places[j] < places[k]
  {
    places := [];
    if n > 0 {
      places := FilteredInOrder(info, chmap, n - 1);
      if ValidChannels(info, |chmap[n-1]|) {
        places := places + [n - 1];
      }
    }
  }

  /** The words of a container: its type 0 and length in bytes, then for every map the type 0x101, the
    * length of its positions in bytes, and these.
    */
  lemma EncodedPlainly(maps: seq<Chmap>, m: Chmap)
    ensures Encoded([]) == [0, 0]
    ensures |Encoded(maps)| >= 2 && Encoded(maps)[0] == 0 && Encoded(maps)[1] == 4 * (|Encoded(maps)| - 2)
    ensures Encoded(maps + [m])[2..] == Encoded(maps)[2..] + [0x101, 4 * |m|] + m
  {
    ItemsSnoc(maps, m);
    assert Items([]) == [] && Item(m) == [0x101, 4 * |m|] + m;
    assert Encoded(maps)[2..] == Items(maps) && Encoded(maps + [m])[2..] == Items(maps + [m]);
  }
}
