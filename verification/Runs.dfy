/** Runs: a state carried through a sequence of operations. */
module Runs {

  function Folded<S, O>(step: (S, O) -> S, s: S, ops: seq<O>): S
    decreases |ops|
  {
    if ops == [] then s else Folded(step, step(s, ops[0]), ops[1..])
  }

  lemma {:induction false} FoldedSnoc<S, O>(step: (S, O) -> S, s: S, ops: seq<O>, op: O)
    ensures Folded(step, s, ops + [op]) == step(Folded(step, s, ops), op)
    decreases |ops|
  {
    if ops == [] {
      assert Folded(step, s, [op]) == Folded(step, step(s, op), []);
    } else {
      assert (ops + [op])[1..] == ops[1..] + [op];
      FoldedSnoc(step, step(s, ops[0]), ops[1..], op);
    }
  }

  lemma FoldedOne<S, O>(step: (S, O) -> S, s: S, op: O)
    ensures Folded(step, s, [op]) == step(s, op)
  {
    assert [op][1..] == [] && Folded(step, step(s, op), []) == step(s, op);
  }

  lemma FoldedFirst<S, O>(step: (S, O) -> S, s: S, op: O, rest: seq<O>)
    ensures Folded(step, s, [op] + rest) == Folded(step, step(s, op), rest)
  {
    assert ([op] + rest)[1..] == rest;
  }

  lemma {:induction false} FoldedAppend<S, O>(step: (S, O) -> S, s: S, a: seq<O>, b: seq<O>)
    ensures Folded(step, s, a + b) == Folded(step, Folded(step, s, a), b)
    decreases |a|
  {
    if a == [] {
      assert a + b == b;
    } else {
      assert (a + b)[1..] == a[1..] + b;
      FoldedAppend(step, step(s, a[0]), a[1..], b);
    }
  }

  /** The first `n` turns of a loop. */
  function Turns<S>(turn: (S, nat) -> S, s: S, n: nat): S {
    if n == 0 then s else turn(Turns(turn, s, n - 1), n - 1)
  }

  /** What holds at first and passes from turn to turn holds after all of them. */
  lemma {:induction false} TurnsKeep<S(!new)>(turn: (S, nat) -> S, inv: (S, nat) -> bool, s: S, n: nat)
    requires inv(s, 0)
    requires forall t: S, k: nat :: k < n && inv(t, k) ==> inv(turn(t, k), k + 1)
    ensures inv(Turns(turn, s, n), n)
  {
    if n > 0 {
      TurnsKeep(turn, inv, s, n - 1);
    }
  }
}
