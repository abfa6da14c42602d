/** How commands to the codec move its signal routes. */
module RouteLaws {
  import opened Options
  import opened HdaCodec
  import opened Verbs
  import opened VerbLaws
  import opened Routes

  /** The verbs that can open or close a route. */
  predicate Reroutes(verb: Option<Verb>) {
    verb.Some? && (verb.value.SetSel? || verb.value.SetPinCtl? || verb.value.SetConfig?)
  }

  /** What a search looks at: the selection unless everything is mixed, and the state of pins. */
  predicate SameHops(n: Node, n': Node) {
    && n'.nid == n.nid && n'.wcaps == n.wcaps && n'.conns == n.conns
    && (Type(n) != AC_WID_AUD_MIX && n.conns != [] ==> n'.currConn == n.currConn)
    && (Type(n) == AC_WID_PIN ==> n'.pinctl == n.pinctl && n'.pinDefault == n.pinDefault)
  }

  ghost predicate SameRouting(c: Codec, c': Codec) {
    && |c'.nodes| == |c.nodes| && c'.afgLen == c.afgLen
    && forall r :: 0 <= r < |c.nodes| ==> SameHops(c.nodes[r], c'.nodes[r])
  }

  lemma CommandSameRouting(c: Codec, cmd: nat, other: int)
    requires Valid(c) && !Reroutes(VerbOf(cmd))
    ensures SameRouting(c, Command(c, cmd, other).0)
  {
  }

  lemma {:induction false} RunSameRouting(c: Codec, cmds: seq<nat>, other: int)
    requires Valid(c) && forall k :: 0 <= k < |cmds| ==> !Reroutes(VerbOf(cmds[k]))
    ensures SameRouting(c, Run(c, cmds, other))
    decreases |cmds|
  {
    if cmds != [] {
      var c1 := Command(c, cmds[0], other).0;
      CommandSameRouting(c, cmds[0], other);
      RunSameRouting(c1, cmds[1..], other);
      var c' := Run(c, cmds, other);
      forall r | 0 <= r < |c.nodes|
        ensures SameHops(c.nodes[r], c'.nodes[r])
      {
        assert SameHops(c.nodes[r], c1.nodes[r]) && SameHops(c1.nodes[r], c'.nodes[r]);
      }
    }
  }

  lemma {:induction false} FindFromKept(c: Codec, c': Codec, nid: nat, r: Ref)
    requires SameRouting(c, c') && r <= |c.nodes|
    ensures FindFrom(c', nid, r) == FindFrom(c, nid, r)
    decreases |c.nodes| - r
  {
    if r < |c.nodes| {
      assert SameHops(c.nodes[r], c'.nodes[r]);
      FindFromKept(c, c', nid, r + 1);
    }
  }

  lemma HopKept(c: Codec, c': Codec, flags: Flags, source: Ref, i: nat, consumer: Ref)
    requires SameRouting(c, c') && source < |c.nodes| && consumer < |c.nodes|
    ensures HopTo(c, flags, source, i, consumer) <==> HopTo(c', flags, source, i, consumer)
    ensures HopFrom(c, flags, source, i, consumer) <==> HopFrom(c', flags, source, i, consumer)
  {
    assert SameHops(c.nodes[source], c'.nodes[source]) && SameHops(c.nodes[consumer], c'.nodes[consumer]);
    if i < |c.nodes[consumer].conns| {
      FindFromKept(c, c', c.nodes[consumer].conns[i], 0);
    }
  }

  lemma RouteKept(c: Codec, c': Codec, flags: Flags, end: Ref, w: Walk)
    requires SameRouting(c, c')
    ensures RouteTo(c, flags, end, w) <==> RouteTo(c', flags, end, w)
    ensures RouteFrom(c, flags, end, w) <==> RouteFrom(c', flags, end, w)
  {
    if WellShaped(c, w) {
      forall k | 0 <= k < |w.idx|
        ensures HopTo(c, flags, w.path[k], w.idx[k], w.path[k+1])
                <==> HopTo(c', flags, w.path[k], w.idx[k], w.path[k+1])
        ensures HopFrom(c, flags, w.path[k], w.idx[k], w.path[k+1])
           <==> HopFrom(c', flags, w.path[k], w.idx[k], w.path[k+1])
      {
        HopKept(c, c', flags, w.path[k], w.idx[k], w.path[k+1]);
      }
      assert forall k :: 0 <= k < |w.path| ==> SameHops(c.nodes[w.path[k]], c'.nodes[w.path[k]]);
    }
  }

  /** Only selections, pin controls and pin configurations reroute: a list of routes stays right
    * through any run of other commands.
    */
  lemma RoutesSurviveCommands(c: Codec, cmds: seq<nat>, other: int, flags: Flags, end: Ref, list: seq<Path>)
    requires Valid(c) && forall k :: 0 <= k < |cmds| ==> !Reroutes(VerbOf(cmds[k]))
    ensures ListsRoutesTo(c, flags, end, list) ==> ListsRoutesTo(Run(c, cmds, other), flags, end, list)
    ensures ListsRoutesFrom(c, flags, end, list) ==> ListsRoutesFrom(Run(c, cmds, other), flags, end, list)
  {
    RunSameRouting(c, cmds, other);
    SameLists(c, Run(c, cmds, other), flags, end, list);
  }

  /** Codecs that a search cannot tell apart have the same routes. */
  lemma SameLists(c: Codec, c': Codec, flags: Flags, end: Ref, list: seq<Path>)
    requires SameRouting(c, c')
    ensures ListsRoutesTo(c, flags, end, list) <==> ListsRoutesTo(c', flags, end, list)
    ensures ListsRoutesFrom(c, flags, end, list) <==> ListsRoutesFrom(c', flags, end, list)
  {
    forall w: Walk
      ensures RouteTo(c, flags, end, w) <==> RouteTo(c', flags, end, w)
      ensures RouteFrom(c, flags, end, w) <==> RouteFrom(c', flags, end, w)
    {
      RouteKept(c, c', flags, end, w);
    }
  }

  // ---- Routes on the records themselves ----

  /** Every condition of the backward search, on the fields that the source looks at. */
  lemma RouteToPlainly(c: Codec, flags: Flags, t: Ref, w: Walk)
    ensures RouteTo(c, flags, t, w) <==>
      && |w.path| == |w.idx| + 1 && 2 <= |w.path| <= 12
      && (forall k :: 0 <= k < |w.path| ==> w.path[k] < |c.nodes|)
      && w.path[|w.path| - 1] == t
      && (forall k :: 0 <= k < |w.idx| ==> var n := c.nodes[w.path[k+1]];
            && w.idx[k] < |n.conns| && Find(c, n.conns[w.idx[k]]) == Some(w.path[k])
            && (flags.showAll || n.wcaps / 0x10_0000 % 16 == 2 || w.idx[k] == n.currConn))
      && (forall k :: 1 <= k < |w.path| - 1 ==> c.nodes[w.path[k]].wcaps / 0x10_0000 % 16 !in {0, 4})
      && var first := c.nodes[w.path[0]];
      && first.wcaps / 0x10_0000 % 16 in {0, 4}
      && (first.wcaps / 0x10_0000 % 16 == 4 && !flags.showInactive ==>
            first.pinDefault / 0x4000_0000 % 4 != 1 && first.pinctl / 0x20 % 2 == 1)
  {
  }

  /** And of the forward search. */
  lemma RouteFromPlainly(c: Codec, flags: Flags, s: Ref, w: Walk)
    ensures RouteFrom(c, flags, s, w) <==>
      && |w.path| == |w.idx| + 1 && 2 <= |w.path| <= 12
      && (forall k :: 0 <= k < |w.path| ==> w.path[k] < |c.nodes|)
      && w.path[0] == s
      && (forall k :: 0 <= k < |w.idx| ==> var n := c.nodes[w.path[k+1]];
            && w.path[k+1] < c.afgLen && w.path[k+1] != w.path[k]
            && w.idx[k] < |n.conns| && n.conns[w.idx[k]] == c.nodes[w.path[k]].nid
            && (flags.showAll || n.wcaps / 0x10_0000 % 16 == 2 || w.idx[k] == n.currConn))
      && (forall k :: 1 <= k < |w.path| - 1 ==> c.nodes[w.path[k]].wcaps / 0x10_0000 % 16 !in {1, 4})
      && var last := c.nodes[w.path[|w.path| - 1]];
      && last.wcaps / 0x10_0000 % 16 in {1, 4}
      && (last.wcaps / 0x10_0000 % 16 == 4 && !flags.showInactive ==>
            last.pinDefault / 0x4000_0000 % 4 != 1 && last.pinctl / 0x40 % 2 == 1)
  {
  }
}
