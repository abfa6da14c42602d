/** Runtime power management of the codec device: a use count, a permission, and the driver's
  * suspend and resume callbacks.
  */
module RuntimePm {
  import opened Runs

  const EINVAL: int := 22

  datatype Event = Suspend | Resume

  /** `events` lists the callbacks made so far. Callbacks are made only while a driver is bound. */
  datatype State = State(bound: bool, cnt: int, allow: bool, suspended: bool, events: seq<Event>)

  function CheckedResume(s: State): State {
    if s.cnt > 0 && s.suspended then
      s.(suspended := false, events := if s.bound then s.events + [Resume] else s.events)
    else s
  }

  function CheckedSuspend(s: State): State {
    if s.cnt == 0 && !s.suspended && s.allow then
      s.(suspended := true, events := if s.bound then s.events + [Suspend] else s.events)
    else s
  }

  datatype Op = GetSync | PutAutosuspend | GetIfInUse(powerSave: bool) | Allow | Forbid

  /** The new state and the result, 0 for the calls without one. */
  function Step(s: State, op: Op): (State, int) {
    match op
    case GetSync => (CheckedResume(s.(cnt := s.cnt + 1)), 0)
    case PutAutosuspend => (CheckedSuspend(s.(cnt := s.cnt - 1)), 0)
    case GetIfInUse(powerSave) =>
      if !powerSave then (s, -EINVAL) else if s.cnt > 0 then (s.(cnt := s.cnt + 1), 1) else (s, 0)
    case Allow => (CheckedSuspend(s.(allow := true)), 0)
    case Forbid => (CheckedResume(s.(allow := false)), 0)
  }

  class Device {
    const bound: bool
    var pmcnt: int
    var pmallow: bool
    var pmsuspended: bool
    var events: seq<Event>

    function View(): State
      reads this
    {
      State(bound, pmcnt, pmallow, pmsuspended, events)
    }

    constructor (bound: bool)
      ensures View() == NewDevice(bound)
    {
      this.bound := bound;
      pmcnt, pmallow, pmsuspended, events := 0, false, false, [];
    }

    method CheckResume()
      modifies this`pmsuspended, this`events
      ensures View() == CheckedResume(old(View()))
    {
      if pmcnt > 0 && pmsuspended {
        pmsuspended := false;
        if bound {
          events := events + [Resume];
        }
      }
    }

    method CheckSuspend()
      modifies this`pmsuspended, this`events
      ensures View() == CheckedSuspend(old(View()))
    {
      if pmcnt == 0 && !pmsuspended && pmallow {
        if bound {
          events := events + [Suspend];
        }
        pmsuspended := true;
      }
    }

    method PmRuntimeGetSync() returns (r: int)
      modifies this
      ensures (View(), r) == Step(old(View()), GetSync)
    {
      pmcnt := pmcnt + 1;
      CheckResume();
      return 0;
    }

    method PmRuntimeGetIfInUse(powerSave: bool) returns (r: int)
      modifies this`pmcnt
      ensures (View(), r) == Step(old(View()), GetIfInUse(powerSave))
    {
      if !powerSave {
        return -EINVAL;
      }
      if pmcnt > 0 {
        pmcnt := pmcnt + 1;
        return 1;
      }
      return 0;
    }

    method PmRuntimePutAutosuspend() returns (r: int)
      modifies this
      ensures (View(), r) == Step(old(View()), PutAutosuspend)
    {
      pmcnt := pmcnt - 1;
      CheckSuspend();
      return 0;
    }

    method PmRuntimeAllow()
      modifies this
      ensures View() == Step(old(View()), Allow).0
    {
      pmallow := true;
      CheckSuspend();
    }

    method PmRuntimeForbid()
      modifies this
      ensures View() == Step(old(View()), Forbid).0
    {
      pmallow := false;
      CheckResume();
    }
  }

  // ---- Runs ----

  /** Suspend and resume strictly alternate, suspend first. */
  predicate Alternate(events: seq<Event>) {
    forall k :: 0 <= k < |events| ==> events[k] == if k % 2 == 0 then Suspend else Resume
  }

  predicate Sound(s: State) {
    && s.cnt >= 0
    && (s.suspended ==> s.cnt == 0)
    && (s.allow && s.cnt == 0 ==> s.suspended)
    && Alternate(s.events)
    && (s.bound ==> (|s.events| % 2 == 1 <==> s.suspended))
    && (!s.bound ==> s.events == [])
  }

  function Stepper(): (State, Op) -> State {
    (s: State, op: Op) => Step(s, op).0
  }

  function Run(s: State, ops: seq<Op>): State {
    Folded(Stepper(), s, ops)
  }

  /** No put comes without a use to give back. */
  predicate Balanced(s: State, ops: seq<Op>)
    decreases |ops|
  {
    ops == [] || ((ops[0].PutAutosuspend? ==> s.cnt > 0) && Balanced(Step(s, ops[0]).0, ops[1..]))
  }

  /** Each call keeps the device sound, exactly when it is no unmatched put. */
  lemma StepSoundExactly(s: State, op: Op)
    requires Sound(s)
    ensures Sound(Step(s, op).0) <==> (op.PutAutosuspend? ==> s.cnt > 0)
  {
  }

  /** Safety over every balanced run. */
  lemma {:induction false} RunSound(s: State, ops: seq<Op>)
    requires Sound(s) && Balanced(s, ops)
    ensures Sound(Run(s, ops))
    decreases |ops|
  {
    if ops != [] {
      StepSoundExactly(s, ops[0]);
      RunSound(Step(s, ops[0]).0, ops[1..]);
    }
  }

  /** A run is balanced exactly when it keeps the device sound after every call. */
  lemma {:induction false} BalancedExactly(s: State, ops: seq<Op>)
    requires Sound(s)
    ensures Balanced(s, ops) <==> forall n :: 0 <= n <= |ops| ==> Sound(Run(s, ops[..n]))
    decreases |ops|
  {
    if ops != [] {
      var s' := Step(s, ops[0]).0;
      StepSoundExactly(s, ops[0]);
      forall n | 0 <= n < |ops|
        ensures Run(s, ops[..n+1]) == Run(s', ops[1..][..n])
      {
        assert ops[..n+1][0] == ops[0] && ops[..n+1][1..] == ops[1..][..n];
      }
      if Sound(s') {
        BalancedExactly(s', ops[1..]);
        assert Balanced(s, ops) <==> Balanced(s', ops[1..]);
        forall n | 0 <= n <= |ops|
          ensures Balanced(s, ops) ==> Sound(Run(s, ops[..n]))
        {
          if n > 0 {
            assert Run(s, ops[..(n-1)+1]) == Run(s', ops[1..][..n-1]);
          }
        }
        if forall n :: 0 <= n <= |ops| ==> Sound(Run(s, ops[..n])) {
          forall n | 0 <= n <= |ops[1..]|
            ensures Sound(Run(s', ops[1..][..n]))
          {
            assert Sound(Run(s, ops[..n+1]));
          }
        }
      } else {
        assert Run(s, ops[..0+1]) == Run(s', ops[1..][..0]) == s';
      }
    }
  }

  // ---- Unmatched puts ----

  /** What no put can break: a device in use is awake, and the callbacks alternate. */
  predicate Alternating(s: State) {
    && (s.suspended ==> s.cnt <= 0)
    && Alternate(s.events)
    && (s.bound ==> (|s.events| % 2 == 1 <==> s.suspended))
    && (!s.bound ==> s.events == [])
  }

  /** What one can break: an unused device sleeps if it may. */
  predicate Rested(s: State) {
    s.allow && s.cnt == 0 ==> s.suspended
  }

  /** A device that is allowed to sleep is awake with one put too many, and a get makes up for that. */
  predicate LeavesAwake(s: State, op: Op) {
    op.GetSync? && s.cnt == -1 && s.allow && !s.suspended
  }

  lemma StepRestedExactly(s: State, op: Op)
    requires Alternating(s) && Rested(s)
    ensures Alternating(Step(s, op).0)
    ensures Rested(Step(s, op).0) <==> !LeavesAwake(s, op)
  {
  }

  /** Balanced or not, no run suspends a device in use or makes a callback twice in a row. */
  lemma {:induction false} RunAlternates(s: State, ops: seq<Op>)
    requires Alternating(s)
    ensures Alternating(Run(s, ops))
    decreases |ops|
  {
    if ops != [] {
      RunAlternates(Step(s, ops[0]).0, ops[1..]);
    }
  }

  /** Over any run, an unused device that may sleep is found asleep after every call exactly when no
    * get makes up for a put too many while the device is awake and may sleep.
    */
  lemma {:induction false} RunRestedExactly(s: State, ops: seq<Op>)
    requires Alternating(s) && Rested(s)
    ensures (forall n :: 0 <= n <= |ops| ==> Rested(Run(s, ops[..n])))
       <==> forall n :: 0 <= n < |ops| ==> !LeavesAwake(Run(s, ops[..n]), ops[n])
    decreases |ops|
  {
    if ops != [] {
      var k := |ops| - 1;
      var rest := ops[..k];
      RunRestedExactly(s, rest);
      assert forall n :: 0 <= n <= k ==> rest[..n] == ops[..n];
      assert forall n :: 0 <= n < k ==> rest[n] == ops[n];
      assert ops == rest + [ops[k]] && ops[..k+1] == ops;
      FoldedSnoc(Stepper(), s, rest, ops[k]);
      RunAlternates(s, rest);
      if Rested(Run(s, rest)) {
        StepRestedExactly(Run(s, rest), ops[k]);
      }
    }
  }

  /** The shortest such run of a new device. */
  lemma UnmatchedPut(bound: bool)
    ensures var s := Run(NewDevice(bound), [PutAutosuspend, Allow, GetSync]);
      s.allow && s.cnt == 0 && !s.suspended
  {
    var s := NewDevice(bound);
    FoldedSnoc(Stepper(), s, [PutAutosuspend, Allow], GetSync);
    FoldedSnoc(Stepper(), s, [PutAutosuspend], Allow);
    FoldedSnoc(Stepper(), s, [], PutAutosuspend);
    assert [PutAutosuspend, Allow] + [GetSync] == [PutAutosuspend, Allow, GetSync];
    assert [PutAutosuspend] + [Allow] == [PutAutosuspend, Allow] && [] + [PutAutosuspend] == [PutAutosuspend];
  }

  // ---- Uses ----

  /** The uses that a run takes, less those that it gives back. */
  function Uses(s: State, ops: seq<Op>): int
    decreases |ops|
  {
    if ops == [] then 0
    else
      (match ops[0]
       case GetSync => 1
       case PutAutosuspend => -1
       case GetIfInUse(_) => if Step(s, ops[0]).1 == 1 then 1 else 0
       case _ => 0) + Uses(Step(s, ops[0]).0, ops[1..])
  }

  /** The device sleeps through no use, and while suspending is allowed it is awake only for a use. */
  lemma {:induction false} AwakeForUses(s: State, ops: seq<Op>)
    requires Sound(s) && Balanced(s, ops)
    ensures Run(s, ops).cnt == s.cnt + Uses(s, ops)
    ensures s.cnt + Uses(s, ops) > 0 ==> !Run(s, ops).suspended
    ensures s.cnt + Uses(s, ops) == 0 && Run(s, ops).allow ==> Run(s, ops).suspended
    decreases |ops|
  {
    if ops != [] {
      StepSoundExactly(s, ops[0]);
      AwakeForUses(Step(s, ops[0]).0, ops[1..]);
    }
  }

  // ---- The calls one by one ----

  /** Every call on the counters: what it answers, and which callback, if any, it makes. */
  lemma StepPlainly(s: State, op: Op)
    ensures var (s', r) := Step(s, op);
      var uses := match op
        case GetSync => s.cnt + 1
        case PutAutosuspend => s.cnt - 1
        case GetIfInUse(powerSave) => if powerSave && s.cnt > 0 then s.cnt + 1 else s.cnt
        case _ => s.cnt;
      var allowed := match op case Allow => true case Forbid => false case _ => s.allow;
      var wakes := (op.GetSync? || op.Forbid?) && s.suspended && uses > 0;
      var sleeps := (op.PutAutosuspend? || op.Allow?) && !s.suspended && uses == 0 && allowed;
      && s'.cnt == uses && s'.allow == allowed && s'.bound == s.bound
      && s'.suspended == (if wakes then false else if sleeps then true else s.suspended)
      && s'.events == (if s.bound && wakes then s.events + [Resume]
                       else if s.bound && sleeps then s.events + [Suspend] else s.events)
      && r == match op
           case GetIfInUse(powerSave) => (if !powerSave then -22 else if s.cnt > 0 then 1 else 0)
           case _ => 0
  {
  }

  /** A device that may not sleep is not suspended until it may: of any run without allow, balanced or
    * not, no event is a suspend but those that were before.
    */
  lemma {:induction false} ForbiddenNeverSuspends(s: State, ops: seq<Op>)
    requires !s.allow && forall k :: 0 <= k < |ops| ==> !ops[k].Allow?
    ensures var s' := Run(s, ops);
      && !s'.allow && (s'.suspended ==> s.suspended)
      && s.events <= s'.events && forall k :: |s.events| <= k < |s'.events| ==> s'.events[k] == Resume
    decreases |ops|
  {
    if ops != [] {
      StepPlainly(s, ops[0]);
      ForbiddenNeverSuspends(Step(s, ops[0]).0, ops[1..]);
    }
  }

  lemma ForbidForbids(s: State, ops: seq<Op>)
    requires forall k :: 0 <= k < |ops| ==> !ops[k].Allow?
    ensures var s1 := Step(s, Forbid).0; var s' := Run(s1, ops);
      && !s'.allow && (s'.suspended ==> s1.suspended)
      && s1.events <= s'.events && forall k :: |s1.events| <= k < |s'.events| ==> s'.events[k] == Resume
  {
    ForbiddenNeverSuspends(Step(s, Forbid).0, ops);
  }

  /** The callbacks of a new device over any run: suspend and resume by turns, suspend first, the last one
    * telling whether it sleeps; without a driver there are none. Over a balanced run it is never asleep
    * while in use, and never awake for no use when it may sleep.
    */
  lemma NewDeviceRuns(bound: bool, ops: seq<Op>)
    ensures var s := Run(NewDevice(bound), ops);
      && (forall k :: 0 <= k < |s.events| ==> s.events[k] == if k % 2 == 0 then Suspend else Resume)
      && (bound ==> (s.suspended <==> |s.events| % 2 == 1)) && (!bound ==> s.events == [])
      && (s.cnt > 0 ==> !s.suspended)
    ensures var s := Run(NewDevice(bound), ops);
      Balanced(NewDevice(bound), ops) ==> s.cnt >= 0 && (s.allow && s.cnt == 0 ==> s.suspended)
  {
    RunAlternates(NewDevice(bound), ops);
    RunKeepsBound(NewDevice(bound), ops);
    if Balanced(NewDevice(bound), ops) {
      RunSound(NewDevice(bound), ops);
    }
  }

  function NewDevice(bound: bool): State {
    State(bound, 0, false, false, [])
  }

  lemma {:induction false} RunKeepsBound(s: State, ops: seq<Op>)
    ensures Run(s, ops).bound == s.bound
    decreases |ops|
  {
    if ops != [] {
      RunKeepsBound(Step(s, ops[0]).0, ops[1..]);
    }
  }
}
