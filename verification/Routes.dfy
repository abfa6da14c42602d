/** Enumeration of the signal routes that end at, or start from, a widget. */
module Routes {
  import opened Options
  import opened HdaCodec

  const MAX_ROUTE_DEPTH: nat := 10

  /** The two option bits that the search looks at. */
  datatype Flags = Flags(showAll: bool, showInactive: bool)

  /** Widgets in signal order, source first. */
  type Path = seq<Ref>

  /** A route together with the connection-list index taken at each hop: hop `k` leads
    * from `path[k]` to `path[k+1]` through entry `idx[k]` of the latter.
    */
  datatype Walk = Walk(path: Path, idx: seq<nat>)

  const PINCTL_IN_EN: nat := 0x20
  const PINCTL_OUT_EN: nat := 0x40

  predicate IsActivePin(node: Node, ctlBit: nat)
    requires ctlBit > 0
  {
    node.pinDefault / 0x4000_0000 % 4 != 1 && Bit(node.pinctl, ctlBit)
  }

  /** Connection `i` of the consumer carries signal: everything is shown, or the consumer
    * mixes all its inputs, or `i` is the selected input.
    */
  predicate Admitted(flags: Flags, consumer: Node, i: nat) {
    flags.showAll || Type(consumer) == AC_WID_AUD_MIX || i == consumer.currConn
  }

  /** A type that ends a backward search, and whether it is reported. */
  predicate StopsAtSource(node: Node) {
    Type(node) == AC_WID_AUD_OUT || Type(node) == AC_WID_PIN
  }

  predicate IsSource(flags: Flags, node: Node) {
    Type(node) == AC_WID_AUD_OUT
    || (Type(node) == AC_WID_PIN && (flags.showInactive || IsActivePin(node, PINCTL_IN_EN)))
  }

  predicate StopsAtSink(node: Node) {
    Type(node) == AC_WID_AUD_IN || Type(node) == AC_WID_PIN
  }

  predicate IsSink(flags: Flags, node: Node) {
    Type(node) == AC_WID_AUD_IN
    || (Type(node) == AC_WID_PIN && (flags.showInactive || IsActivePin(node, PINCTL_OUT_EN)))
  }

  // ---- What a route is, without reference to any search ----

  predicate WellShaped(c: Codec, w: Walk) {
    |w.path| == |w.idx| + 1 && forall k :: 0 <= k < |w.path| ==> w.path[k] < |c.nodes|
  }

  /** The consumer's entry names, by NID, the widget that feeds it. */
  predicate HopTo(c: Codec, flags: Flags, source: Ref, i: nat, consumer: Ref)
    requires source < |c.nodes| && consumer < |c.nodes|
  {
    && i < |c.nodes[consumer].conns|
    && Admitted(flags, c.nodes[consumer], i)
    && Find(c, c.nodes[consumer].conns[i]) == Some(source)
  }

  predicate HopFrom(c: Codec, flags: Flags, source: Ref, i: nat, consumer: Ref)
    requires source < |c.nodes| && consumer < |c.nodes|
  {
    && consumer < c.afgLen
    && consumer != source
    && i < |c.nodes[consumer].conns|
    && c.nodes[consumer].conns[i] == c.nodes[source].nid
    && Admitted(flags, c.nodes[consumer], i)
  }

  predicate HopsTo(c: Codec, flags: Flags, w: Walk)
    requires WellShaped(c, w)
  {
    forall k :: 0 <= k < |w.idx| ==> HopTo(c, flags, w.path[k], w.idx[k], w.path[k+1])
  }

  predicate HopsFrom(c: Codec, flags: Flags, w: Walk)
    requires WellShaped(c, w)
  {
    forall k :: 0 <= k < |w.idx| ==> HopFrom(c, flags, w.path[k], w.idx[k], w.path[k+1])
  }

  predicate InteriorTo(c: Codec, w: Walk)
    requires WellShaped(c, w)
  {
    forall k :: 1 <= k < |w.path| - 1 ==> !StopsAtSource(c.nodes[w.path[k]])
  }

  predicate InteriorFrom(c: Codec, w: Walk)
    requires WellShaped(c, w)
  {
    forall k :: 1 <= k < |w.path| - 1 ==> !StopsAtSink(c.nodes[w.path[k]])
  }

  /** `w` is a route that ends at `target`. */
  predicate RouteTo(c: Codec, flags: Flags, target: Ref, w: Walk) {
    && WellShaped(c, w)
    && 2 <= |w.path| <= MAX_ROUTE_DEPTH + 2
    && w.path[|w.path| - 1] == target
    && HopsTo(c, flags, w)
    && IsSource(flags, c.nodes[w.path[0]])
    && InteriorTo(c, w)
  }

  /** `w` is a route that starts from `source`. */
  predicate RouteFrom(c: Codec, flags: Flags, source: Ref, w: Walk) {
    && WellShaped(c, w)
    && 2 <= |w.path| <= MAX_ROUTE_DEPTH + 2
    && w.path[0] == source
    && HopsFrom(c, flags, w)
    && IsSink(flags, c.nodes[w.path[|w.path| - 1]])
    && InteriorFrom(c, w)
  }

  // ---- Lists of routes ----

  predicate Distinct<T(==)>(s: seq<T>) {
    forall j, k :: 0 <= j < k < |s| ==> s[j] != s[k]
  }

  function Paths(ws: seq<Walk>): (ps: seq<Path>)
    ensures |ps| == |ws| && forall k :: 0 <= k < |ws| ==> ps[k] == ws[k].path
  {
    seq(|ws|, k requires 0 <= k < |ws| => ws[k].path)
  }

  /** `list` holds one entry for every walk of `ws`, and `ws` lists no walk twice. */
  predicate Enumerates(list: seq<Path>, ws: seq<Walk>) {
    Distinct(ws) && list == Paths(ws)
  }

  /** Growing the list at its head by the routes of `more`. */
  lemma PathsAppend(list0: seq<Path>, found: seq<Walk>, more: seq<Walk>)
    ensures Paths(more) + (Paths(found) + list0) == Paths(more + found) + list0
  {
  }

  /** The first `depth` slots of the search buffer, copied into a fresh record. */
  method CreateRoute(route: array<Option<Ref>>, depth: nat, revert: bool) returns (path: Path)
    requires depth <= route.Length && forall k :: 0 <= k < depth ==> route[k].Some?
    ensures |path| == depth
    ensures forall k :: 0 <= k < depth ==> Some(path[k]) == route[if revert then depth - k - 1 else k]
  {
    var node := new Ref[depth];
    for i := 0 to depth
      invariant revert ==> forall k :: depth - i <= k < depth ==> route[depth - k - 1] == Some(node[k])
      invariant !revert ==> forall k :: 0 <= k < i ==> route[k] == Some(node[k])
    {
      var j := if revert then depth - i - 1 else i;
      node[j] := route[i].value;
    }
    path := node[..];
  }

  // ---- The backward search ----

  /** `w` is longer than `tail` and ends like it. */
  predicate Extends(w: Walk, tail: Walk) {
    && |w.path| == |w.idx| + 1 && |tail.path| == |tail.idx| + 1
    && |w.path| > |tail.path|
    && w.path[|w.path| - |tail.path|..] == tail.path
    && w.idx[|w.idx| - |tail.idx|..] == tail.idx
  }

  /** The index chosen at the hop into the head of `tail`. */
  function ChoiceBefore(w: Walk, tail: Walk): nat
    requires Extends(w, tail)
  {
    w.idx[|w.idx| - |tail.idx| - 1]
  }

  /** A walk that the backward search may extend: nothing but its last widget may be of a
    * type that ends a search.
    */
  predicate PartialTo(c: Codec, flags: Flags, target: Ref, tail: Walk) {
    && WellShaped(c, tail)
    && tail.path[|tail.path| - 1] == target
    && HopsTo(c, flags, tail)
    && (forall k :: 0 <= k < |tail.path| - 1 ==> !StopsAtSource(c.nodes[tail.path[k]]))
  }

  function Extend(src: Ref, i: nat, tail: Walk): Walk {
    Walk([src] + tail.path, [i] + tail.idx)
  }

  /** A route through `tail` goes on to the widget its next index names, and stops there or
    * not by that widget's type.
    */
  lemma ExtendedRoute(c: Codec, flags: Flags, target: Ref, tail: Walk, w: Walk)
    requires PartialTo(c, flags, target, tail)
    requires RouteTo(c, flags, target, w) && Extends(w, tail)
    ensures var i := ChoiceBefore(w, tail);
      i < |c.nodes[tail.path[0]].conns| && Admitted(flags, c.nodes[tail.path[0]], i)
      && var found := Find(c, c.nodes[tail.path[0]].conns[i]);
      found.Some? && var src := found.value;
      if StopsAtSource(c.nodes[src]) then IsSource(flags, c.nodes[src]) && w == Extend(src, i, tail)
      else Extends(w, Extend(src, i, tail))
  {
    var m := |w.path| - |tail.path|;
    var i, src := w.idx[m-1], w.path[m-1];
    assert w.path[m] == w.path[m..][0] == tail.path[0];
    assert HopTo(c, flags, src, i, w.path[m]);
    var ext := Extend(src, i, tail);
    assert w.path[m-1..] == ext.path;
    assert w.idx[m-1..] == ext.idx;
    if m == 1 {
      assert w.path == w.path[m-1..] && w.idx == w.idx[m-1..];
      assert w == ext;
      assert IsSource(flags, c.nodes[src]);
    } else {
      assert !StopsAtSource(c.nodes[w.path[m-1]]);
    }
  }

  /** Conversely, an admitted hop to a source completes a route. */
  lemma SourceCompletes(c: Codec, flags: Flags, target: Ref, tail: Walk, src: Ref, i: nat)
    requires PartialTo(c, flags, target, tail) && |tail.path| <= MAX_ROUTE_DEPTH + 1
    requires src < |c.nodes| && HopTo(c, flags, src, i, tail.path[0]) && IsSource(flags, c.nodes[src])
    ensures var w := Extend(src, i, tail);
      RouteTo(c, flags, target, w) && Extends(w, tail) && ChoiceBefore(w, tail) == i
  {
    var w := Extend(src, i, tail);
    assert w.path[1..] == tail.path && w.idx[1..] == tail.idx;
    forall k | 0 <= k < |w.idx|
      ensures HopTo(c, flags, w.path[k], w.idx[k], w.path[k+1])
    {
      if k > 0 {
        assert HopTo(c, flags, tail.path[k-1], tail.idx[k-1], tail.path[k]);
      }
    }
  }

  lemma ExtendPartialTo(c: Codec, flags: Flags, target: Ref, tail: Walk, src: Ref, i: nat)
    requires PartialTo(c, flags, target, tail)
    requires src < |c.nodes| && HopTo(c, flags, src, i, tail.path[0]) && !StopsAtSource(c.nodes[src])
    ensures PartialTo(c, flags, target, Extend(src, i, tail))
  {
    var w := Extend(src, i, tail);
    forall k | 0 <= k < |w.idx|
      ensures HopTo(c, flags, w.path[k], w.idx[k], w.path[k+1])
    {
      if k > 0 {
        assert HopTo(c, flags, tail.path[k-1], tail.idx[k-1], tail.path[k]);
      }
    }
  }

  lemma ExtendsExtend(src: Ref, i: nat, tail: Walk, w: Walk)
    requires |tail.path| == |tail.idx| + 1
    requires Extends(w, Extend(src, i, tail))
    ensures Extends(w, tail) && ChoiceBefore(w, tail) == i
  {
    var ext := Extend(src, i, tail);
    var m := |w.path| - |ext.path|;
    assert w.path[m+1..] == w.path[m..][1..] == tail.path;
    assert w.idx[m+1..] == w.idx[m..][1..] == tail.idx;
    assert w.idx[m] == w.idx[m..][0];
  }

  /** What the search below `tail` has to find: through connection `i`, or through one before `n`. */
  predicate RouteVia(c: Codec, flags: Flags, target: Ref, tail: Walk, i: nat, w: Walk) {
    RouteTo(c, flags, target, w) && Extends(w, tail) && ChoiceBefore(w, tail) == i
  }

  predicate RouteBelow(c: Codec, flags: Flags, target: Ref, tail: Walk, n: nat, w: Walk) {
    RouteTo(c, flags, target, w) && Extends(w, tail) && ChoiceBefore(w, tail) < n
  }

  /** `found` lists, once each, the routes through the first `n` connections of the head of `tail`. */
  ghost predicate FoundBelow(c: Codec, flags: Flags, target: Ref, tail: Walk, n: nat, found: seq<Walk>) {
    Distinct(found) && forall w :: w in found <==> RouteBelow(c, flags, target, tail, n, w)
  }

  ghost predicate FoundVia(c: Codec, flags: Flags, target: Ref, tail: Walk, i: nat, found: seq<Walk>) {
    Distinct(found) && forall w :: w in found <==> RouteVia(c, flags, target, tail, i, w)
  }

  /** `found` lists, once each, every route that continues `tail`. */
  ghost predicate FoundAll(c: Codec, flags: Flags, target: Ref, tail: Walk, found: seq<Walk>) {
    Distinct(found) && forall w :: w in found <==> RouteTo(c, flags, target, w) && Extends(w, tail)
  }

  lemma AddVia(c: Codec, flags: Flags, target: Ref, tail: Walk, i: nat, found: seq<Walk>, more: seq<Walk>)
    requires FoundBelow(c, flags, target, tail, i, found)
    requires FoundVia(c, flags, target, tail, i, more)
    ensures FoundBelow(c, flags, target, tail, i + 1, more + found)
    ensures Paths(more + found) == Paths(more) + Paths(found)
  {
    forall j, k | 0 <= j < k < |more + found|
      ensures (more + found)[j] != (more + found)[k]
    {
      if j < |more| <= k {
        assert more[j] in more && found[k - |more|] in found;
      }
    }
  }

  lemma AllBelow(c: Codec, flags: Flags, target: Ref, tail: Walk, found: seq<Walk>)
    requires PartialTo(c, flags, target, tail)
    ensures FoundBelow(c, flags, target, tail, 0, [])
    ensures FoundBelow(c, flags, target, tail, |c.nodes[tail.path[0]].conns|, found)
      ==> FoundAll(c, flags, target, tail, found)
    ensures |tail.path| > MAX_ROUTE_DEPTH + 1 ==> FoundAll(c, flags, target, tail, [])
  {
    forall w | RouteTo(c, flags, target, w) && Extends(w, tail) {
      ExtendedRoute(c, flags, target, tail, w);
    }
  }

  /** The three ways one connection can contribute. */
  lemma ViaConnection(c: Codec, flags: Flags, target: Ref, tail: Walk, i: nat)
    requires PartialTo(c, flags, target, tail) && |tail.path| <= MAX_ROUTE_DEPTH + 1
    requires i < |c.nodes[tail.path[0]].conns|
    ensures var consumer := c.nodes[tail.path[0]];
      var src := Find(c, consumer.conns[i]);
      if !Admitted(flags, consumer, i) || src.None?
         || (StopsAtSource(c.nodes[src.value]) && !IsSource(flags, c.nodes[src.value]))
      then FoundVia(c, flags, target, tail, i, [])
      else if IsSource(flags, c.nodes[src.value])
      then FoundVia(c, flags, target, tail, i, [Extend(src.value, i, tail)])
      else && PartialTo(c, flags, target, Extend(src.value, i, tail))
           && forall more :: FoundAll(c, flags, target, Extend(src.value, i, tail), more)
                ==> FoundVia(c, flags, target, tail, i, more)
  {
    forall w | RouteVia(c, flags, target, tail, i, w) {
      ExtendedRoute(c, flags, target, tail, w);
    }
    var found := Find(c, c.nodes[tail.path[0]].conns[i]);
    if Admitted(flags, c.nodes[tail.path[0]], i) && found.Some? {
      var src := found.value;
      assert HopTo(c, flags, src, i, tail.path[0]);
      if IsSource(flags, c.nodes[src]) {
        SourceCompletes(c, flags, target, tail, src, i);
      } else if !StopsAtSource(c.nodes[src]) {
        ExtendPartialTo(c, flags, target, tail, src, i);
        forall w | Extends(w, Extend(src, i, tail)) {
          ExtendsExtend(src, i, tail, w);
        }
      }
    }
  }

  // ---- The end of the buffer ----

  /** The buffer of the source has MAX_ROUTE_DEPTH + 1 slots, the one here has one more: who writes
    * that writes past the end of the other. A slot that was not written holds nothing.
    */
  predicate Spilt(route: array<Option<Ref>>)
    requires route.Length == MAX_ROUTE_DEPTH + 2
    reads route
  {
    route[MAX_ROUTE_DEPTH + 1].Some?
  }

  /** A partial walk fills the buffer of the source, and an admitted source feeds its first widget. */
  predicate FullTo(c: Codec, flags: Flags, target: Ref, tail: Walk, src: Ref, i: nat) {
    && PartialTo(c, flags, target, tail) && |tail.path| == MAX_ROUTE_DEPTH + 1
    && src < |c.nodes| && HopTo(c, flags, src, i, tail.path[0]) && IsSource(flags, c.nodes[src])
  }

  ghost predicate OverrunsTo(c: Codec, flags: Flags, target: Ref) {
    exists tail, src, i :: FullTo(c, flags, target, tail, src, i)
  }

  /** `w` is `tail` or extends it. */
  predicate Reaches(w: Walk, tail: Walk) {
    w == tail || Extends(w, tail)
  }

  lemma ReachesExtend(src: Ref, i: nat, tail: Walk, w: Walk)
    requires |tail.path| == |tail.idx| + 1 && Reaches(w, Extend(src, i, tail))
    ensures Extends(w, tail)
  {
    if w != Extend(src, i, tail) {
      ExtendsExtend(src, i, tail, w);
    } else {
      assert w.path[1..] == tail.path && w.idx[1..] == tail.idx;
    }
  }

  /** The next widget and entry of a longer partial walk. */
  lemma NextOnTail(c: Codec, flags: Flags, target: Ref, tail: Walk, w: Walk) returns (src: Ref, i: nat)
    requires PartialTo(c, flags, target, tail) && PartialTo(c, flags, target, w) && Extends(w, tail)
    ensures src < |c.nodes| && HopTo(c, flags, src, i, tail.path[0]) && !StopsAtSource(c.nodes[src])
    ensures Reaches(w, Extend(src, i, tail))
  {
    var m := |w.path| - |tail.path|;
    i, src := w.idx[m-1], w.path[m-1];
    assert w.path[m] == w.path[m..][0];
    assert HopTo(c, flags, src, i, w.path[m]);
    assert w.path[m-1..] == [src] + w.path[m..] && w.idx[m-1..] == [i] + w.idx[m..];
    if m == 1 {
      assert w.path == w.path[m-1..] && w.idx == w.idx[m-1..];
    }
  }

  /** Below `tail` the search writes past the end; or does so through connection `i`, or before `n`. */
  ghost predicate SpillsTo(c: Codec, flags: Flags, target: Ref, tail: Walk) {
    exists w, src, i :: FullTo(c, flags, target, w, src, i) && Reaches(w, tail)
  }

  /** A found widget is written behind the last at once if it is an admitted source, else by a search
    * below it.
    */
  ghost predicate SpillsVia(c: Codec, flags: Flags, target: Ref, tail: Walk, i: nat)
    requires |tail.path| > 0 && tail.path[0] < |c.nodes|
  {
    var consumer := c.nodes[tail.path[0]];
    && i < |consumer.conns| && Admitted(flags, consumer, i)
    && var src := Find(c, consumer.conns[i]);
    && src.Some?
    && if StopsAtSource(c.nodes[src.value])
       then IsSource(flags, c.nodes[src.value]) && |tail.path| == MAX_ROUTE_DEPTH + 1
       else SpillsTo(c, flags, target, Extend(src.value, i, tail))
  }

  ghost predicate SpillsBelow(c: Codec, flags: Flags, target: Ref, tail: Walk, n: nat)
    requires |tail.path| > 0 && tail.path[0] < |c.nodes|
  {
    n > 0 && (SpillsBelow(c, flags, target, tail, n - 1) || SpillsVia(c, flags, target, tail, n - 1))
  }

  lemma {:induction false} SpillsBelowVia(c: Codec, flags: Flags, target: Ref, tail: Walk, n: nat, i: nat)
    requires |tail.path| > 0 && tail.path[0] < |c.nodes|
    requires i < n && SpillsVia(c, flags, target, tail, i)
    ensures SpillsBelow(c, flags, target, tail, n)
  {
    if i + 1 < n {
      SpillsBelowVia(c, flags, target, tail, n - 1, i);
    }
  }

  lemma {:induction false} ViaOfBelow(c: Codec, flags: Flags, target: Ref, tail: Walk, n: nat) returns (i: nat)
    requires |tail.path| > 0 && tail.path[0] < |c.nodes| && SpillsBelow(c, flags, target, tail, n)
    ensures i < n && SpillsVia(c, flags, target, tail, i)
  {
    if SpillsVia(c, flags, target, tail, n - 1) {
      i := n - 1;
    } else {
      i := ViaOfBelow(c, flags, target, tail, n - 1);
    }
  }

  lemma SpillsViaFull(c: Codec, flags: Flags, target: Ref, tail: Walk, w: Walk, s: Ref, k: nat)
    requires PartialTo(c, flags, target, tail)
    requires FullTo(c, flags, target, w, s, k) && Reaches(w, tail)
    ensures SpillsBelow(c, flags, target, tail, |c.nodes[tail.path[0]].conns|)
  {
    if w == tail {
      SpillsBelowVia(c, flags, target, tail, |c.nodes[tail.path[0]].conns|, k);
    } else {
      var src, i := NextOnTail(c, flags, target, tail, w);
      SpillsBelowVia(c, flags, target, tail, |c.nodes[tail.path[0]].conns|, i);
    }
  }

  lemma SpillsToStep(c: Codec, flags: Flags, target: Ref, tail: Walk)
    requires PartialTo(c, flags, target, tail)
    ensures SpillsTo(c, flags, target, tail) <==>
      |tail.path| <= MAX_ROUTE_DEPTH + 1 && SpillsBelow(c, flags, target, tail, |c.nodes[tail.path[0]].conns|)
  {
    if |tail.path| > MAX_ROUTE_DEPTH + 1 {
      return;
    }
    if w, s, k :| FullTo(c, flags, target, w, s, k) && Reaches(w, tail) {
      SpillsViaFull(c, flags, target, tail, w, s, k);
    }
    if SpillsBelow(c, flags, target, tail, |c.nodes[tail.path[0]].conns|) {
      var i := ViaOfBelow(c, flags, target, tail, |c.nodes[tail.path[0]].conns|);
      var src := Find(c, c.nodes[tail.path[0]].conns[i]).value;
      if StopsAtSource(c.nodes[src]) {
        assert FullTo(c, flags, target, tail, src, i) && Reaches(tail, tail);
      } else {
        var w, s, k :| FullTo(c, flags, target, w, s, k) && Reaches(w, Extend(src, i, tail));
        ReachesExtend(src, i, tail, w);
      }
    }
  }

  method RoutesConnectedTo(c: Codec, flags: Flags, node: Ref, depth: nat, route: array<Option<Ref>>,
                           list0: seq<Path>, ghost target: Ref, ghost tail: Walk)
    returns (list: seq<Path>, ghost found: seq<Walk>)
    requires Valid(c) && route.Length == MAX_ROUTE_DEPTH + 2
    requires depth <= MAX_ROUTE_DEPTH + 1 && |tail.path| == depth + 1
    requires PartialTo(c, flags, target, tail) && tail.path[0] == node
    requires forall k :: 0 <= k < depth ==> route[k] == Some(tail.path[depth - k])
    modifies route
    ensures forall k :: 0 <= k < depth ==> route[k] == old(route[k])
    ensures list == Paths(found) + list0
    ensures FoundAll(c, flags, target, tail, found)
    ensures Spilt(route) <==> old(Spilt(route)) || SpillsTo(c, flags, target, tail)
    decreases MAX_ROUTE_DEPTH + 1 - depth, 1
  {
    list, found := list0, [];
    AllBelow(c, flags, target, tail, found);
    SpillsToStep(c, flags, target, tail);
    if depth > MAX_ROUTE_DEPTH {
      return;
    }
    route[depth] := Some(node);
    for i := 0 to |c.nodes[node].conns|
      invariant forall k :: 0 <= k <= depth ==> route[k] == Some(tail.path[depth - k])
      invariant list == Paths(found) + list0
      invariant FoundBelow(c, flags, target, tail, i, found)
      invariant Spilt(route) <==> old(Spilt(route)) || SpillsBelow(c, flags, target, tail, i)
    {
      ghost var more;
      list, more := FollowConnection(c, flags, node, i, depth, route, list, target, tail);
      AddVia(c, flags, target, tail, i, found, more);
      PathsAppend(list0, found, more);
      found := more + found;
    }
    AllBelow(c, flags, target, tail, found);
  }

  /** The body of the loop over the connections. */
  method FollowConnection(c: Codec, flags: Flags, node: Ref, i: nat, depth: nat, route: array<Option<Ref>>,
                          list0: seq<Path>, ghost target: Ref, ghost tail: Walk)
    returns (list: seq<Path>, ghost found: seq<Walk>)
    requires Valid(c) && route.Length == MAX_ROUTE_DEPTH + 2
    requires depth <= MAX_ROUTE_DEPTH && |tail.path| == depth + 1
    requires PartialTo(c, flags, target, tail) && tail.path[0] == node && i < |c.nodes[node].conns|
    requires forall k :: 0 <= k <= depth ==> route[k] == Some(tail.path[depth - k])
    modifies route
    ensures forall k :: 0 <= k <= depth ==> route[k] == old(route[k])
    ensures list == Paths(found) + list0
    ensures FoundVia(c, flags, target, tail, i, found)
    ensures Spilt(route) <==> old(Spilt(route)) || SpillsVia(c, flags, target, tail, i)
    decreases MAX_ROUTE_DEPTH + 1 - depth, 0
  {
    list, found := list0, [];
    ViaConnection(c, flags, target, tail, i);
    var consumer := c.nodes[node];
    if !flags.showAll && Type(consumer) != AC_WID_AUD_MIX && i != consumer.currConn {
      return;
    }
    var hit := Find(c, consumer.conns[i]);
    if hit.None? {
      return;
    }
    var src := hit.value;
    if Type(c.nodes[src]) == AC_WID_AUD_OUT || Type(c.nodes[src]) == AC_WID_PIN {
      if Type(c.nodes[src]) == AC_WID_PIN && !flags.showInactive && !IsActivePin(c.nodes[src], PINCTL_IN_EN) {
        return;
      }
      route[depth + 1] := Some(src);
      var path := CreateRoute(route, depth + 2, true);
      found := [Extend(src, i, tail)];
      assert path == found[0].path;
      list := [path] + list;
      return;
    }
    list, found := RoutesConnectedTo(c, flags, src, depth + 1, route, list, target, Extend(src, i, tail));
  }

  lemma TailOfAll(c: Codec, flags: Flags, target: Ref)
    ensures SpillsTo(c, flags, target, Walk([target], [])) <==> OverrunsTo(c, flags, target)
  {
    var tail := Walk([target], []);
    forall w | PartialTo(c, flags, target, w)
      ensures Reaches(w, tail)
    {
      assert w.path[|w.path| - 1..] == tail.path && w.idx[|w.idx|..] == tail.idx;
      if |w.path| == 1 {
        assert w.path == w.path[0..] && w.idx == [];
      }
    }
  }

  /** `list` is, as a multiset of index-labelled paths, exactly the routes that end at `target`. */
  ghost predicate ListsRoutesTo(c: Codec, flags: Flags, target: Ref, list: seq<Path>) {
    exists ws :: Enumerates(list, ws) && forall w :: w in ws <==> RouteTo(c, flags, target, w)
  }

  /** `overrun` tells that the search wrote past the end of the buffer that the source gives it. */
  method HdaRoutesConnectedTo(c: Codec, flags: Flags, nid: nat) returns (list: seq<Path>, overrun: bool)
    requires Valid(c)
    ensures Find(c, nid).None? ==> list == [] && !overrun
    ensures Find(c, nid).Some? ==> (overrun <==> OverrunsTo(c, flags, Find(c, nid).value))
    ensures Find(c, nid).Some? ==> ListsRoutesTo(c, flags, Find(c, nid).value, list)
  {
    var route := new Option<Ref>[MAX_ROUTE_DEPTH + 2](_ => None);
    var hit := Find(c, nid);
    if hit.None? {
      return [], false;
    }
    ghost var tail := Walk([hit.value], []);
    ghost var found;
    list, found := RoutesConnectedTo(c, flags, hit.value, 0, route, [], hit.value, tail);
    overrun := route[MAX_ROUTE_DEPTH + 1].Some?;
    TailOfAll(c, flags, hit.value);
    assert list == Paths(found);
    forall w | RouteTo(c, flags, hit.value, w)
      ensures Extends(w, tail)
    {
      assert w.path[|w.path| - 1..] == tail.path;
    }
    assert Enumerates(list, found);
  }

  // ---- The forward search ----

  /** `w` is longer than `head` and starts like it. */
  predicate Continues(w: Walk, head: Walk) {
    && |w.path| == |w.idx| + 1 && |head.path| == |head.idx| + 1
    && |w.path| > |head.path|
    && w.path[..|head.path|] == head.path
    && w.idx[..|head.idx|] == head.idx
  }

  predicate PartialFrom(c: Codec, flags: Flags, source: Ref, head: Walk) {
    && WellShaped(c, head)
    && head.path[0] == source
    && HopsFrom(c, flags, head)
    && (forall k :: 1 <= k < |head.path| ==> !StopsAtSink(c.nodes[head.path[k]]))
  }

  function Append(head: Walk, dest: Ref, i: nat): Walk {
    Walk(head.path + [dest], head.idx + [i])
  }

  function Last(w: Walk): Ref
    requires |w.path| > 0
  {
    w.path[|w.path| - 1]
  }

  lemma ContinuedRoute(c: Codec, flags: Flags, source: Ref, head: Walk, w: Walk)
    requires PartialFrom(c, flags, source, head)
    requires RouteFrom(c, flags, source, w) && Continues(w, head)
    ensures var dest, i := w.path[|head.path|], w.idx[|head.idx|];
      && dest < |c.nodes| && HopFrom(c, flags, Last(head), i, dest)
      && if StopsAtSink(c.nodes[dest]) then IsSink(flags, c.nodes[dest]) && w == Append(head, dest, i)
         else Continues(w, Append(head, dest, i))
  {
    var m := |head.path|;
    var dest, i := w.path[m], w.idx[m-1];
    assert w.path[m-1] == w.path[..m][m-1] == Last(head);
    assert HopFrom(c, flags, w.path[m-1], i, w.path[m]);
    var ext := Append(head, dest, i);
    assert w.path[..m+1] == ext.path;
    assert w.idx[..m] == ext.idx;
    if m + 1 == |w.path| {
      assert w.path == w.path[..m+1] && w.idx == w.idx[..m];
      assert w == ext;
      assert IsSink(flags, c.nodes[dest]);
    } else {
      assert !StopsAtSink(c.nodes[w.path[m]]);
    }
  }

  lemma AppendHops(c: Codec, flags: Flags, source: Ref, head: Walk, dest: Ref, i: nat)
    requires PartialFrom(c, flags, source, head)
    requires dest < |c.nodes| && HopFrom(c, flags, Last(head), i, dest)
    ensures WellShaped(c, Append(head, dest, i)) && HopsFrom(c, flags, Append(head, dest, i))
    ensures Continues(Append(head, dest, i), head)
  {
    var w := Append(head, dest, i);
    assert w.path[..|head.path|] == head.path && w.idx[..|head.idx|] == head.idx;
    forall k | 0 <= k < |w.idx|
      ensures HopFrom(c, flags, w.path[k], w.idx[k], w.path[k+1])
    {
      if k < |head.idx| {
        assert HopFrom(c, flags, head.path[k], head.idx[k], head.path[k+1]);
      }
    }
  }

  lemma ContinuesAppend(head: Walk, dest: Ref, i: nat, w: Walk)
    requires |head.path| == |head.idx| + 1
    requires Continues(w, Append(head, dest, i))
    ensures Continues(w, head) && w.path[|head.path|] == dest && w.idx[|head.idx|] == i
  {
    var m := |head.path|;
    assert w.path[..m] == w.path[..m+1][..m];
    assert w.idx[..m-1] == w.idx[..m][..m-1];
    assert w.path[m] == w.path[..m+1][m] && w.idx[m-1] == w.idx[..m][m-1];
  }

  /** The routes that leave `head` through entry `i` of `dest`. */
  predicate RouteInto(c: Codec, flags: Flags, source: Ref, head: Walk, dest: Ref, i: nat, w: Walk) {
    && RouteFrom(c, flags, source, w) && Continues(w, head)
    && w.path[|head.path|] == dest && w.idx[|head.idx|] == i
  }

  /** The routes that leave `head` through a widget before `d`, or through an entry of `d` before `n`. */
  predicate RouteBefore(c: Codec, flags: Flags, source: Ref, head: Walk, d: Ref, n: nat, w: Walk) {
    && RouteFrom(c, flags, source, w) && Continues(w, head)
    && (w.path[|head.path|] < d || (w.path[|head.path|] == d && w.idx[|head.idx|] < n))
  }

  ghost predicate FoundInto(c: Codec, flags: Flags, source: Ref, head: Walk, dest: Ref, i: nat, found: seq<Walk>) {
    Distinct(found) && forall w :: w in found <==> RouteInto(c, flags, source, head, dest, i, w)
  }

  ghost predicate FoundBefore(c: Codec, flags: Flags, source: Ref, head: Walk, d: Ref, n: nat, found: seq<Walk>) {
    Distinct(found) && forall w :: w in found <==> RouteBefore(c, flags, source, head, d, n, w)
  }

  ghost predicate FoundOnward(c: Codec, flags: Flags, source: Ref, head: Walk, found: seq<Walk>) {
    Distinct(found) && forall w :: w in found <==> RouteFrom(c, flags, source, w) && Continues(w, head)
  }

  lemma AddInto(c: Codec, flags: Flags, source: Ref, head: Walk, dest: Ref, i: nat, found: seq<Walk>, more: seq<Walk>)
    requires FoundBefore(c, flags, source, head, dest, i, found)
    requires FoundInto(c, flags, source, head, dest, i, more)
    ensures FoundBefore(c, flags, source, head, dest, i + 1, more + found)
  {
    forall j, k | 0 <= j < k < |more + found|
      ensures (more + found)[j] != (more + found)[k]
    {
      if j < |more| <= k {
        assert more[j] in more && found[k - |more|] in found;
      }
    }
  }

  /** Passing from one widget of the chain to the next. */
  lemma NextDest(c: Codec, flags: Flags, source: Ref, head: Walk, d: Ref, found: seq<Walk>)
    requires PartialFrom(c, flags, source, head) && d < c.afgLen <= |c.nodes|
    requires exists n: nat :: FoundBefore(c, flags, source, head, d, n, found)
               && (d == Last(head) || n == |c.nodes[d].conns|)
    ensures FoundBefore(c, flags, source, head, d + 1, 0, found)
  {
    forall w | RouteFrom(c, flags, source, w) && Continues(w, head) {
      ContinuedRoute(c, flags, source, head, w);
    }
  }

  lemma AllBefore(c: Codec, flags: Flags, source: Ref, head: Walk, found: seq<Walk>)
    requires PartialFrom(c, flags, source, head)
    ensures FoundBefore(c, flags, source, head, 0, 0, [])
    ensures FoundBefore(c, flags, source, head, c.afgLen, 0, found) ==> FoundOnward(c, flags, source, head, found)
    ensures |head.path| > MAX_ROUTE_DEPTH + 1 ==> FoundOnward(c, flags, source, head, [])
  {
    forall w | RouteFrom(c, flags, source, w) && Continues(w, head) {
      ContinuedRoute(c, flags, source, head, w);
    }
  }

  /** What one entry of one widget contributes. */
  lemma IntoDest(c: Codec, flags: Flags, source: Ref, head: Walk, dest: Ref, i: nat)
    requires PartialFrom(c, flags, source, head) && |head.path| <= MAX_ROUTE_DEPTH + 1
    requires dest < c.afgLen <= |c.nodes| && dest != Last(head) && i < |c.nodes[dest].conns|
    ensures var consumer := c.nodes[dest];
      if consumer.conns[i] != c.nodes[Last(head)].nid || !Admitted(flags, consumer, i)
         || (StopsAtSink(consumer) && !IsSink(flags, consumer))
      then FoundInto(c, flags, source, head, dest, i, [])
      else if IsSink(flags, consumer)
      then FoundInto(c, flags, source, head, dest, i, [Append(head, dest, i)])
      else && PartialFrom(c, flags, source, Append(head, dest, i))
           && forall more :: FoundOnward(c, flags, source, Append(head, dest, i), more)
                ==> FoundInto(c, flags, source, head, dest, i, more)
  {
    forall w | RouteInto(c, flags, source, head, dest, i, w) {
      ContinuedRoute(c, flags, source, head, w);
    }
    var consumer := c.nodes[dest];
    if consumer.conns[i] == c.nodes[Last(head)].nid && Admitted(flags, consumer, i) {
      AppendHops(c, flags, source, head, dest, i);
      forall w | Continues(w, Append(head, dest, i)) {
        ContinuesAppend(head, dest, i, w);
      }
    }
  }

  /** A partial walk fills the buffer of the source, and there is one more hop. */
  predicate FullFrom(c: Codec, flags: Flags, source: Ref, head: Walk, dest: Ref, i: nat) {
    && PartialFrom(c, flags, source, head) && |head.path| == MAX_ROUTE_DEPTH + 1
    && dest < |c.nodes| && HopFrom(c, flags, Last(head), i, dest)
  }

  ghost predicate OverrunsFrom(c: Codec, flags: Flags, source: Ref) {
    exists head: Walk, dest: Ref, i: nat :: FullFrom(c, flags, source, head, dest, i)
  }

  /** `w` is `head` or continues it. */
  predicate GoesOn(w: Walk, head: Walk) {
    w == head || Continues(w, head)
  }

  /** The next widget and entry of a longer partial walk. */
  lemma NextOnHead(c: Codec, flags: Flags, source: Ref, head: Walk, w: Walk) returns (dest: Ref, i: nat)
    requires PartialFrom(c, flags, source, head) && PartialFrom(c, flags, source, w) && Continues(w, head)
    ensures dest < |c.nodes| && HopFrom(c, flags, Last(head), i, dest) && !StopsAtSink(c.nodes[dest])
    ensures GoesOn(w, Append(head, dest, i))
  {
    var m := |head.path|;
    dest, i := w.path[m], w.idx[m-1];
    assert w.path[m-1] == w.path[..m][m-1];
    assert HopFrom(c, flags, w.path[m-1], i, w.path[m]);
    assert w.path[..m+1] == w.path[..m] + [dest] && w.idx[..m] == w.idx[..m-1] + [i];
    if m + 1 == |w.path| {
      assert w.path == w.path[..m+1] && w.idx == w.idx[..m];
    }
  }

  /** The search on from `head` writes past the end; or does so into entry `i` of `dest`, or before
    * entry `n` of `d`.
    */
  ghost predicate SpillsFrom(c: Codec, flags: Flags, source: Ref, head: Walk) {
    exists w, dest, i :: FullFrom(c, flags, source, w, dest, i) && GoesOn(w, head)
  }

  /** A consumer is written behind the last at once, before the search looks at its type. */
  ghost predicate SpillsInto(c: Codec, flags: Flags, source: Ref, head: Walk, dest: Ref, i: nat)
    requires |head.path| > 0
  {
    && dest < |c.nodes| && Last(head) < |c.nodes| && HopFrom(c, flags, Last(head), i, dest)
    && (|head.path| == MAX_ROUTE_DEPTH + 1
        || (!StopsAtSink(c.nodes[dest]) && SpillsFrom(c, flags, source, Append(head, dest, i))))
  }

  ghost predicate SpillsBefore(c: Codec, flags: Flags, source: Ref, head: Walk, d: Ref, n: nat)
    requires |head.path| > 0
  {
    exists dest: Ref, i: nat :: (dest < d || (dest == d && i < n)) && SpillsInto(c, flags, source, head, dest, i)
  }

  lemma SpillsFromStep(c: Codec, flags: Flags, source: Ref, head: Walk)
    requires Valid(c) && PartialFrom(c, flags, source, head)
    ensures SpillsFrom(c, flags, source, head) <==>
      |head.path| <= MAX_ROUTE_DEPTH + 1 && SpillsBefore(c, flags, source, head, c.afgLen, 0)
  {
    if |head.path| > MAX_ROUTE_DEPTH + 1 {
      return;
    }
    if w, d, k :| FullFrom(c, flags, source, w, d, k) && GoesOn(w, head) {
      if w == head {
        assert SpillsInto(c, flags, source, head, d, k);
      } else {
        var dest, i := NextOnHead(c, flags, source, head, w);
        assert SpillsInto(c, flags, source, head, dest, i);
      }
    }
    if dest: Ref, i: nat :| SpillsInto(c, flags, source, head, dest, i) {
      if |head.path| == MAX_ROUTE_DEPTH + 1 {
        assert FullFrom(c, flags, source, head, dest, i) && GoesOn(head, head);
      } else {
        var w, d, k :| FullFrom(c, flags, source, w, d, k) && GoesOn(w, Append(head, dest, i));
        GoesOnAppend(head, dest, i, w);
      }
    }
  }

  lemma GoesOnAppend(head: Walk, dest: Ref, i: nat, w: Walk)
    requires |head.path| == |head.idx| + 1 && GoesOn(w, Append(head, dest, i))
    ensures Continues(w, head)
  {
    if w != Append(head, dest, i) {
      ContinuesAppend(head, dest, i, w);
    } else {
      assert w.path[..|head.path|] == head.path && w.idx[..|head.idx|] == head.idx;
    }
  }

  method RoutesConnectedFrom(c: Codec, flags: Flags, node: Ref, depth: nat, route: array<Option<Ref>>,
                             list0: seq<Path>, ghost source: Ref, ghost head: Walk)
    returns (list: seq<Path>, ghost found: seq<Walk>)
    requires Valid(c) && route.Length == MAX_ROUTE_DEPTH + 2
    requires depth <= MAX_ROUTE_DEPTH + 1 && |head.path| == depth + 1
    requires PartialFrom(c, flags, source, head) && Last(head) == node
    requires forall k :: 0 <= k < depth ==> route[k] == Some(head.path[k])
    modifies route
    ensures forall k :: 0 <= k < depth ==> route[k] == old(route[k])
    ensures list == Paths(found) + list0
    ensures FoundOnward(c, flags, source, head, found)
    ensures Spilt(route) <==> old(Spilt(route)) || SpillsFrom(c, flags, source, head)
    decreases MAX_ROUTE_DEPTH + 1 - depth, 1
  {
    list, found := list0, [];
    AllBefore(c, flags, source, head, found);
    SpillsFromStep(c, flags, source, head);
    if depth > MAX_ROUTE_DEPTH {
      return;
    }
    route[depth] := Some(node);
    for dest := 0 to c.afgLen
      invariant forall k :: 0 <= k <= depth ==> route[k] == Some(head.path[k])
      invariant list == Paths(found) + list0
      invariant FoundBefore(c, flags, source, head, dest, 0, found)
      invariant Spilt(route) <==> old(Spilt(route)) || SpillsBefore(c, flags, source, head, dest, 0)
    {
      if dest == node {
        NextDest(c, flags, source, head, dest, found);
        continue;
      }
      for i := 0 to |c.nodes[dest].conns|
        invariant forall k :: 0 <= k <= depth ==> route[k] == Some(head.path[k])
        invariant list == Paths(found) + list0
        invariant FoundBefore(c, flags, source, head, dest, i, found)
        invariant Spilt(route) <==> old(Spilt(route)) || SpillsBefore(c, flags, source, head, dest, i)
      {
        ghost var more;
        list, more := FollowConsumer(c, flags, node, dest, i, depth, route, list, source, head);
        AddInto(c, flags, source, head, dest, i, found, more);
        PathsAppend(list0, found, more);
        found := more + found;
      }
      NextDest(c, flags, source, head, dest, found);
    }
    AllBefore(c, flags, source, head, found);
  }

  /** The body of the loop over the entries of one widget. */
  method FollowConsumer(c: Codec, flags: Flags, node: Ref, dest: Ref, i: nat, depth: nat, route: array<Option<Ref>>,
                        list0: seq<Path>, ghost source: Ref, ghost head: Walk)
    returns (list: seq<Path>, ghost found: seq<Walk>)
    requires Valid(c) && route.Length == MAX_ROUTE_DEPTH + 2
    requires depth <= MAX_ROUTE_DEPTH && |head.path| == depth + 1
    requires PartialFrom(c, flags, source, head) && Last(head) == node
    requires dest < c.afgLen && dest != node && i < |c.nodes[dest].conns|
    requires forall k :: 0 <= k <= depth ==> route[k] == Some(head.path[k])
    modifies route
    ensures forall k :: 0 <= k <= depth ==> route[k] == old(route[k])
    ensures list == Paths(found) + list0
    ensures FoundInto(c, flags, source, head, dest, i, found)
    ensures Spilt(route) <==> old(Spilt(route)) || SpillsInto(c, flags, source, head, dest, i)
    decreases MAX_ROUTE_DEPTH + 1 - depth, 0
  {
    list, found := list0, [];
    IntoDest(c, flags, source, head, dest, i);
    var consumer := c.nodes[dest];
    if consumer.conns[i] != c.nodes[node].nid {
      return;
    }
    if !flags.showAll && Type(consumer) != AC_WID_AUD_MIX && i != consumer.currConn {
      return;
    }
    route[depth + 1] := Some(dest);
    if Type(consumer) == AC_WID_AUD_IN || Type(consumer) == AC_WID_PIN {
      if Type(consumer) == AC_WID_PIN && !flags.showInactive && !IsActivePin(consumer, PINCTL_OUT_EN) {
        return;
      }
      route[depth + 1] := Some(dest);
      var path := CreateRoute(route, depth + 2, false);
      found := [Append(head, dest, i)];
      assert path == found[0].path;
      list := [path] + list;
      return;
    }
    list, found := RoutesConnectedFrom(c, flags, dest, depth + 1, route, list, source, Append(head, dest, i));
  }

  lemma HeadOfAll(c: Codec, flags: Flags, source: Ref)
    ensures SpillsFrom(c, flags, source, Walk([source], [])) <==> OverrunsFrom(c, flags, source)
  {
    var head := Walk([source], []);
    forall w | PartialFrom(c, flags, source, w)
      ensures GoesOn(w, head)
    {
      assert w.path[..1] == head.path && w.idx[..0] == head.idx;
      if |w.path| == 1 {
        assert w.path == w.path[..1] && w.idx == [];
      }
    }
  }

  /** `list` is, as a multiset of index-labelled paths, exactly the routes that start from `source`. */
  ghost predicate ListsRoutesFrom(c: Codec, flags: Flags, source: Ref, list: seq<Path>) {
    exists ws :: Enumerates(list, ws) && forall w :: w in ws <==> RouteFrom(c, flags, source, w)
  }

  /** `overrun` tells that the search wrote past the end of the buffer that the source gives it. */
  method HdaRoutesConnectedFrom(c: Codec, flags: Flags, nid: nat) returns (list: seq<Path>, overrun: bool)
    requires Valid(c)
    ensures Find(c, nid).None? ==> list == [] && !overrun
    ensures Find(c, nid).Some? ==> (overrun <==> OverrunsFrom(c, flags, Find(c, nid).value))
    ensures Find(c, nid).Some? ==> ListsRoutesFrom(c, flags, Find(c, nid).value, list)
  {
    var route := new Option<Ref>[MAX_ROUTE_DEPTH + 2](_ => None);
    var hit := Find(c, nid);
    if hit.None? {
      return [], false;
    }
    ghost var head := Walk([hit.value], []);
    ghost var found;
    list, found := RoutesConnectedFrom(c, flags, hit.value, 0, route, [], hit.value, head);
    overrun := route[MAX_ROUTE_DEPTH + 1].Some?;
    HeadOfAll(c, flags, hit.value);
    assert list == Paths(found);
    forall w | RouteFrom(c, flags, hit.value, w)
      ensures Continues(w, head)
    {
      assert w.path[..1] == head.path;
    }
    assert Enumerates(list, found);
  }

  // ---- The two searches agree ----

  /** No hop stays on its widget or enters another chain, and nothing on the way could end either
    * search.
    */
  predicate Direct(c: Codec, path: Path) {
    && (forall k :: 0 <= k < |path| ==> path[k] < |c.nodes|)
    && (forall k :: 0 <= k < |path| - 1 ==> path[k] != path[k+1])
    && (forall k :: 1 <= k < |path| ==> path[k] < c.afgLen)
    && (forall k :: 1 <= k < |path| - 1 ==> !StopsAtSource(c.nodes[path[k]]) && !StopsAtSink(c.nodes[path[k]]))
  }

  lemma HopsAgree(c: Codec, flags: Flags, source: Ref, i: nat, consumer: Ref)
    requires UniqueNids(c)
    requires source < |c.nodes| && consumer < |c.nodes| && source != consumer && consumer < c.afgLen
    ensures HopTo(c, flags, source, i, consumer) <==> HopFrom(c, flags, source, i, consumer)
  {
    FindUnique(c, source);
  }

  lemma RoutesAgree(c: Codec, flags: Flags, s: Ref, t: Ref, w: Walk)
    requires UniqueNids(c)
    requires s < |c.nodes| && t < |c.nodes| && IsSource(flags, c.nodes[s]) && IsSink(flags, c.nodes[t])
    requires Direct(c, w.path) && |w.path| > 0 && w.path[0] == s && Last(w) == t
    ensures RouteTo(c, flags, t, w) <==> RouteFrom(c, flags, s, w)
  {
    if WellShaped(c, w) {
      forall k | 0 <= k < |w.idx|
        ensures HopTo(c, flags, w.path[k], w.idx[k], w.path[k+1])
           <==> HopFrom(c, flags, w.path[k], w.idx[k], w.path[k+1])
      {
        HopsAgree(c, flags, w.path[k], w.idx[k], w.path[k+1]);
      }
    }
  }

  /** The walks of `ws` along `path`. */
  function Along(ws: seq<Walk>, path: Path): set<Walk> {
    set w | w in ws && w.path == path
  }

  lemma CountCons(w: Walk, rest: seq<Walk>, path: Path)
    ensures multiset(Paths([w] + rest))[path] == multiset(Paths(rest))[path] + if w.path == path then 1 else 0
  {
    assert Paths([w] + rest) == [w.path] + Paths(rest);
  }

  /** In a list without repeated walks a path occurs once for each of its labellings. */
  lemma {:induction false} CountAlong(ws: seq<Walk>, path: Path)
    requires Distinct(ws)
    ensures multiset(Paths(ws))[path] == |Along(ws, path)|
  {
    if |ws| == 0 {
      assert Along(ws, path) == {};
    } else {
      var w, rest := ws[0], ws[1..];
      CountAlong(rest, path);
      CountCons(w, rest, path);
      assert ws == [w] + rest && w !in Along(rest, path);
      if w.path == path {
        assert Along(ws, path) == {w} + Along(rest, path);
      } else {
        assert Along(ws, path) == Along(rest, path);
      }
    }
  }

  /** The routes from `s` to `t` are listed by either search, each as often as by the other. */
  lemma SearchesAreDual(c: Codec, flags: Flags, s: Ref, t: Ref, path: Path, listTo: seq<Path>, listFrom: seq<Path>)
    requires UniqueNids(c)
    requires s < |c.nodes| && t < |c.nodes| && IsSource(flags, c.nodes[s]) && IsSink(flags, c.nodes[t])
    requires Direct(c, path) && |path| > 0 && path[0] == s && path[|path| - 1] == t
    requires ListsRoutesTo(c, flags, t, listTo) && ListsRoutesFrom(c, flags, s, listFrom)
    ensures multiset(listTo)[path] == multiset(listFrom)[path]
  {
    var to :| Enumerates(listTo, to) && forall w :: w in to <==> RouteTo(c, flags, t, w);
    var from :| Enumerates(listFrom, from) && forall w :: w in from <==> RouteFrom(c, flags, s, w);
    forall w: Walk | w.path == path
      ensures w in to <==> w in from
    {
      RoutesAgree(c, flags, s, t, w);
    }
    assert Along(to, path) == Along(from, path);
    CountAlong(to, path);
    CountAlong(from, path);
  }

  // ---- How long a route can be ----

  function Blank(nid: nat): Node {
    var caps := AmpCaps(0, 0, 0, false, false);
    var amps: AmpVals := seq(HDA_MAX_NUM_CONNS, _ => AmpPair(0, 0));
    Node(nid, 0, 0, 0, caps, caps, amps, amps, [], 0, 0, [])
  }

  /** The route record of the source has MAX_ROUTE_DEPTH + 1 slots. A mixer that feeds itself
    * has a route of one widget more.
    */
  lemma LongestRoute()
    ensures exists c: Codec, flags: Flags, t: Ref, w: Walk ::
      Valid(c) && UniqueNids(c) && RouteTo(c, flags, t, w) && |w.path| == MAX_ROUTE_DEPTH + 2
  {
    var afg := Blank(1);
    var mixer := afg.(nid := 2, wcaps := 0x20_0000, conns := [2, 3]);
    var dac := afg.(nid := 3);
    var c := Codec([afg, mixer, dac], 3, false);
    var flags := Flags(false, false);
    FindUnique(c, 1);
    FindUnique(c, 2);
    var w := Walk([2] + seq(11, _ => 1), [1] + seq(10, _ => 0));
    assert RouteTo(c, flags, 1, w);
  }

  /** What the two searches write past the ends of. In the backward search the record and the buffer
    * overflow together: a route too long for the one is a source one slot too far in the other.
    */
  lemma RecordsFitTo(c: Codec, flags: Flags, t: Ref, list: seq<Path>)
    requires ListsRoutesTo(c, flags, t, list)
    ensures (forall k :: 0 <= k < |list| ==> |list[k]| <= MAX_ROUTE_DEPTH + 1) <==> !OverrunsTo(c, flags, t)
  {
    var ws: seq<Walk> :| Enumerates(list, ws) && forall w :: w in ws <==> RouteTo(c, flags, t, w);
    if tail, src, i :| FullTo(c, flags, t, tail, src, i) {
      SourceCompletes(c, flags, t, tail, src, i);
      var k :| 0 <= k < |ws| && ws[k] == Extend(src, i, tail);
      assert list[k] == ws[k].path;
    }
    forall k | 0 <= k < |list| && |list[k]| > MAX_ROUTE_DEPTH + 1
      ensures OverrunsTo(c, flags, t)
    {
      assert ws[k] in ws && list[k] == ws[k].path;
      LongIsFullTo(c, flags, t, ws[k]);
    }
  }

  lemma LongIsFullTo(c: Codec, flags: Flags, t: Ref, w: Walk)
    requires RouteTo(c, flags, t, w) && |w.path| == MAX_ROUTE_DEPTH + 2
    ensures FullTo(c, flags, t, Walk(w.path[1..], w.idx[1..]), w.path[0], w.idx[0])
  {
    var tail := Walk(w.path[1..], w.idx[1..]);
    forall k | 0 <= k < |tail.idx|
      ensures HopTo(c, flags, tail.path[k], tail.idx[k], tail.path[k+1])
    {
      assert HopTo(c, flags, w.path[k+1], w.idx[k+1], w.path[k+2]);
    }
    assert HopTo(c, flags, w.path[0], w.idx[0], w.path[1]);
  }

  /** A sink behind a full buffer makes a route that its record has no room for. */
  ghost predicate OverfillsFrom(c: Codec, flags: Flags, s: Ref) {
    exists head: Walk, dest: Ref, i: nat :: FullFrom(c, flags, s, head, dest, i) && IsSink(flags, c.nodes[dest])
  }

  /** In the forward search the record overflows only for a sink, the buffer for any consumer. */
  lemma RecordsFitFrom(c: Codec, flags: Flags, s: Ref, list: seq<Path>)
    requires ListsRoutesFrom(c, flags, s, list)
    ensures (forall k :: 0 <= k < |list| ==> |list[k]| <= MAX_ROUTE_DEPTH + 1) <==> !OverfillsFrom(c, flags, s)
  {
    var ws: seq<Walk> :| Enumerates(list, ws) && forall w :: w in ws <==> RouteFrom(c, flags, s, w);
    if OverfillsFrom(c, flags, s) {
      var w := LongRouteFrom(c, flags, s);
      var k :| 0 <= k < |ws| && ws[k] == w;
      assert list[k] == w.path;
    }
    forall k | 0 <= k < |list| && |list[k]| > MAX_ROUTE_DEPTH + 1
      ensures OverfillsFrom(c, flags, s)
    {
      assert ws[k] in ws && list[k] == ws[k].path;
      LongIsFullFrom(c, flags, s, ws[k]);
    }
  }

  lemma LongRouteFrom(c: Codec, flags: Flags, s: Ref) returns (w: Walk)
    requires OverfillsFrom(c, flags, s)
    ensures RouteFrom(c, flags, s, w) && |w.path| == MAX_ROUTE_DEPTH + 2
  {
    var head: Walk, dest: Ref, i: nat :| FullFrom(c, flags, s, head, dest, i) && IsSink(flags, c.nodes[dest]);
    AppendHops(c, flags, s, head, dest, i);
    w := Append(head, dest, i);
  }

  lemma LongIsFullFrom(c: Codec, flags: Flags, s: Ref, w: Walk)
    requires RouteFrom(c, flags, s, w) && |w.path| == MAX_ROUTE_DEPTH + 2
    ensures var m := MAX_ROUTE_DEPTH;
      FullFrom(c, flags, s, Walk(w.path[..m+1], w.idx[..m]), w.path[m+1], w.idx[m])
  {
    var m := MAX_ROUTE_DEPTH;
    var head := Walk(w.path[..m+1], w.idx[..m]);
    forall k | 0 <= k < |head.idx|
      ensures HopFrom(c, flags, head.path[k], head.idx[k], head.path[k+1])
    {
      assert HopFrom(c, flags, w.path[k], w.idx[k], w.path[k+1]);
    }
    assert HopFrom(c, flags, w.path[m], w.idx[m], w.path[m+1]);
  }

  function TwoMixers(): Codec {
    var mixer := Blank(2).(wcaps := 0x20_0000);
    Codec([Blank(1), mixer.(conns := [3]), mixer.(nid := 3, conns := [2])], 3, false)
  }

  /** Two mixers that feed each other overrun the buffer of the forward search, although no route
    * starts from either.
    */
  lemma OverrunWithoutRoute(flags: Flags, list: seq<Path>)
    ensures Valid(TwoMixers()) && UniqueNids(TwoMixers()) && OverrunsFrom(TwoMixers(), flags, 1)
    ensures ListsRoutesFrom(TwoMixers(), flags, 1, list) ==> list == []
  {
    var c := TwoMixers();
    TwoMixersFull(flags);
    if ListsRoutesFrom(c, flags, 1, list) && list != [] {
      SinkOfList(c, flags, 1, list);
    }
  }

  lemma TwoMixersFull(flags: Flags)
    ensures FullFrom(TwoMixers(), flags, 1, Walk(seq(11, k => 1 + k % 2), seq(10, _ => 0)), 2, 0)
  {
    var c := TwoMixers();
    assert HopFrom(c, flags, 1, 0, 2) && HopFrom(c, flags, 2, 0, 1);
  }

  lemma SinkOfList(c: Codec, flags: Flags, s: Ref, list: seq<Path>)
    requires Valid(c) && ListsRoutesFrom(c, flags, s, list) && list != []
    ensures exists r: Ref :: r < c.afgLen && IsSink(flags, c.nodes[r])
  {
    var ws: seq<Walk> :| Enumerates(list, ws) && forall w :: w in ws <==> RouteFrom(c, flags, s, w);
    assert ws[0] in ws;
    RouteEnds(c, flags, s, ws[0]);
  }

  /** A forward route ends at a sink of the chain. */
  lemma RouteEnds(c: Codec, flags: Flags, s: Ref, w: Walk)
    requires RouteFrom(c, flags, s, w)
    ensures Last(w) < c.afgLen && Last(w) < |c.nodes| && IsSink(flags, c.nodes[Last(w)])
  {
    var n := |w.path|;
    assert HopFrom(c, flags, w.path[n-2], w.idx[n-2], w.path[n-1]);
  }
}
