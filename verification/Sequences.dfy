/** Texts put together from pieces, as printers write them and parsers cut them. */
module Sequences {

  lemma Associative<T>(a: seq<T>, b: seq<T>, c: seq<T>)
    ensures (a + b) + c == a + (b + c)
  {
  }

  lemma SamePrefix<T>(a: seq<T>, b: seq<T>, c: seq<T>)
    ensures a + b <= a + c <==> b <= c
  {
    if a + b <= a + c {
      assert forall i :: 0 <= i < |b| ==> b[i] == (a + b)[|a| + i] == (a + c)[|a| + i] == c[i];
    }
    if b <= c {
      assert a + c == (a + b) + c[|b|..];
    }
  }

  /** The texts of the items from `c` on, one behind the other, and `end` behind them. */
  function Joined<T>(text: T -> string, xs: seq<T>, c: nat, end: string): string
    requires c <= |xs|
    decreases |xs| - c
  {
    if c == |xs| then end else text(xs[c]) + Joined(text, xs, c + 1, end)
  }

  lemma {:induction false} JoinedSplit<T>(text: T -> string, xs: seq<T>, c: nat, m: nat, end: string)
    requires c <= m <= |xs|
    ensures Joined(text, xs, c, end) == Joined(text, xs[..m], c, Joined(text, xs, m, end))
    decreases m - c
  {
    if c < m {
      JoinedSplit(text, xs, c + 1, m, end);
    }
  }

  lemma {:induction false} JoinedEnd<T>(text: T -> string, xs: seq<T>, c: nat, a: string, b: string)
    requires c <= |xs|
    ensures Joined(text, xs, c, a + b) == Joined(text, xs, c, a) + b
    decreases |xs| - c
  {
    if c < |xs| {
      JoinedEnd(text, xs, c + 1, a, b);
      Associative(text(xs[c]), Joined(text, xs, c + 1, a), b);
    }
  }

  lemma {:induction false} JoinedLength<T>(text: T -> string, xs: seq<T>, c: nat, end: string, len: nat)
    requires c <= |xs| && forall x :: x in xs ==> |text(x)| == len
    ensures |Joined(text, xs, c, end)| == len * (|xs| - c) + |end|
    decreases |xs| - c
  {
    if c < |xs| {
      JoinedLength(text, xs, c + 1, end, len);
      assert len * (|xs| - c) == len + len * (|xs| - (c + 1));
    }
  }
}
