/** The registry of ALSA controls of a card, and the index that a new jack control gets. */
module Controls {
  import opened Options
  import opened Runs

  const EBUSY: int := 16
  const ENODEV: int := 19
  const IFACE_CARD: nat := 0

  /** Room for a control name without its terminator. */
  const NAME_LEN: nat := 43

  datatype Id = Id(iface: nat, device: nat, subdevice: nat, index: nat, name: string)

  /** A registered control: its identity, and the element numbers `numid` to `numid + count - 1`. */
  datatype Ctl = Ctl(id: Id, numid: nat, count: nat)

  /** The list of a card and the number of element numbers handed out so far. */
  datatype Registry = Registry(ctls: seq<Ctl>, elems: nat)

  const EMPTY := Registry([], 0)

  function FindIdFrom(ctls: seq<Ctl>, id: Id, k: nat): (r: Option<nat>)
    requires k <= |ctls|
    ensures r.Some? ==> k <= r.value < |ctls| && ctls[r.value].id == id
    ensures r.None? ==> forall j :: k <= j < |ctls| ==> ctls[j].id != id
    decreases |ctls| - k
  {
    if k == |ctls| then None else if ctls[k].id == id then Some(k) else FindIdFrom(ctls, id, k + 1)
  }

  function FindId(r: Registry, id: Id): Option<nat> {
    FindIdFrom(r.ctls, id, 0)
  }

  predicate Holds(c: Ctl, numid: nat) {
    c.numid <= numid && c.numid + c.count > numid
  }

  function FindNumidFrom(ctls: seq<Ctl>, numid: nat, k: nat): (r: Option<nat>)
    requires k <= |ctls|
    ensures r.Some? ==> k <= r.value < |ctls| && Holds(ctls[r.value], numid)
    ensures r.None? ==> forall j :: k <= j < |ctls| ==> !Holds(ctls[j], numid)
    decreases |ctls| - k
  {
    if k == |ctls| then None else if Holds(ctls[k], numid) then Some(k) else FindNumidFrom(ctls, numid, k + 1)
  }

  function Added(r: Registry, id: Id, count: nat): (Registry, int) {
    if FindId(r, id).Some? then (r, -EBUSY)
    else (Registry(r.ctls + [Ctl(id, r.elems + 1, count)], r.elems + count), 0)
  }

  function RemovedAt(r: Registry, i: nat): Registry
    requires i < |r.ctls|
  {
    r.(ctls := r.ctls[..i] + r.ctls[i+1..])
  }

  function RemovedId(r: Registry, id: Id): (Registry, int) {
    match FindId(r, id)
    case None => (r, -ENODEV)
    case Some(i) => (RemovedAt(r, i), 0)
  }

  // ---- The records ----

  class Kcontrol {
    const id: Id
    const count: nat
    var numid: nat

    /** A count of 0 stands for 1. */
    constructor (id: Id, count: nat)
      ensures this.id == id && this.count == (if count != 0 then count else 1) && numid == 0
    {
      this.id, this.count, numid := id, if count != 0 then count else 1, 0;
    }

    function View(): Ctl
      reads this
    {
      Ctl(id, numid, count)
    }
  }

  class Card {
    var list: seq<Kcontrol>
    var listElems: nat
    ghost var views: seq<Ctl>

    ghost predicate Valid()
      reads this, list
    {
      && |views| == |list|
      && (forall i :: 0 <= i < |list| ==> list[i].View() == views[i])
      && (forall i, j :: 0 <= i < j < |list| ==> list[i] != list[j])
    }

    ghost function View(): Registry
      reads this
    {
      Registry(views, listElems)
    }

    constructor ()
      ensures Valid() && View() == EMPTY
    {
      list, listElems, views := [], 0, [];
    }

    method SndCtlFindId(id: Id) returns (k: Option<nat>)
      requires Valid()
      ensures k == FindId(View(), id)
    {
      var i := 0;
      while i < |list|
        invariant i <= |list| && FindId(View(), id) == FindIdFrom(views, id, i)
      {
        if list[i].id == id {
          return Some(i);
        }
        i := i + 1;
      }
      return None;
    }

    method SndCtlFindNumid(numid: nat) returns (k: Option<nat>)
      requires Valid()
      ensures k == FindNumidFrom(views, numid, 0)
    {
      var i := 0;
      while i < |list|
        invariant i <= |list| && FindNumidFrom(views, numid, 0) == FindNumidFrom(views, numid, i)
      {
        if list[i].numid <= numid && list[i].numid + list[i].count > numid {
          return Some(i);
        }
        i := i + 1;
      }
      return None;
    }

    method SndCtlAdd(kctl: Kcontrol) returns (err: int)
      requires Valid()
      modifies this, kctl
      ensures Valid()
      ensures var r := Added(old(View()), kctl.id, kctl.count); View() == r.0 && err == r.1
      ensures list == if err == 0 then old(list) + [kctl] else old(list)
    {
      var found := SndCtlFindId(kctl.id);
      if found.Some? {
        return -EBUSY;
      }
      assert kctl !in list by {
        assert forall i :: 0 <= i < |list| ==> views[i].id != kctl.id;
      }
      kctl.numid := listElems + 1;
      listElems := listElems + kctl.count;
      list, views := list + [kctl], views + [kctl.View()];
      return 0;
    }

    /** Takes the control at position `i` out of the list. */
    method SndCtlRemove(i: nat)
      requires Valid() && i < |list|
      modifies this`list, this`views
      ensures Valid() && View() == RemovedAt(old(View()), i)
    {
      list, views := list[..i] + list[i+1..], views[..i] + views[i+1..];
    }

    method SndCtlRemoveId(id: Id) returns (err: int)
      requires Valid()
      modifies this`list, this`views
      ensures Valid()
      ensures var r := RemovedId(old(View()), id); View() == r.0 && err == r.1
    {
      var k := SndCtlFindId(id);
      if k.None? {
        return -ENODEV;
      }
      SndCtlRemove(k.value);
      return 0;
    }

    /** The least index under which no control of this name, cut to its room, exists yet. */
    method GetAvailableIndex(name: string) returns (index: nat)
      requires Valid()
      ensures FindId(View(), JackId(Cut(name), index)).None?
      ensures forall k: nat :: k < index ==> FindId(View(), JackId(Cut(name), k)).Some?
    {
      var sidName := Cut(name);
      index := 0;
      ghost var taken: set<nat> := {};
      while true
        invariant forall k: nat :: k < index ==> FindId(View(), JackId(sidName, k)).Some?
        invariant |taken| == index && forall p :: p in taken ==> p < |views| && views[p].id.index < index
        decreases |views| - index
      {
        var k := SndCtlFindId(JackId(sidName, index));
        if k.None? {
          return;
        }
        assert k.value !in taken;
        taken := taken + {k.value};
        AtMost(taken, |views|);
        index := index + 1;
      }
    }

    /** The control is not registered yet, and no control has its identity. */
    method SndKctlJackNew(name: string) returns (kctl: Kcontrol)
      requires Valid()
      ensures fresh(kctl) && kctl.count == 1
      ensures kctl.id == JackId(JackName(name), kctl.id.index)
      ensures Added(View(), kctl.id, kctl.count).1 == 0
      ensures forall k: nat :: k < kctl.id.index ==> Added(View(), JackId(JackName(name), k), 1).1 == -EBUSY
    {
      var fullName := JackName(name);
      var index := GetAvailableIndex(fullName);
      kctl := new Kcontrol(JackId(fullName, index), 1);
    }
  }

  function JackId(name: string, index: nat): Id {
    Id(IFACE_CARD, 0, 0, index, name)
  }

  /** A set of numbers below `n` has at most `n` members. */
  lemma {:induction false} AtMost(s: set<nat>, n: nat)
    requires forall p :: p in s ==> p < n
    ensures |s| <= n
  {
    if n == 0 {
      assert s == {};
    } else {
      AtMost(s - {n - 1}, n - 1);
    }
  }

  // ---- Names of jack controls ----

  const JACK := " Jack"

  predicate EndsInJack(name: string) {
    |name| >= |JACK| && name[|name| - |JACK|..] == JACK
  }

  function Cut(name: string): string {
    if |name| <= NAME_LEN then name else name[..NAME_LEN]
  }

  function JackName(name: string): string {
    Cut(if EndsInJack(name) then name else name + JACK)
  }

  /** Naming a jack after a jack control changes nothing, cut names included. */
  lemma JackNameStable(name: string)
    ensures JackName(JackName(name)) == JackName(name)
  {
    var named := JackName(name);
    if !EndsInJack(named) {
      assert |named| == NAME_LEN;
      assert (named + JACK)[..NAME_LEN] == named;
    }
  }

  // ---- Runs ----

  datatype Op = OpAdd(id: Id, count: nat) | OpRemove(i: nat) | OpRemoveId(id: Id)

  function Step(r: Registry, op: Op): Registry {
    match op
    case OpAdd(id, count) => Added(r, id, if count != 0 then count else 1).0
    case OpRemove(i) => if i < |r.ctls| then RemovedAt(r, i) else r
    case OpRemoveId(id) => RemovedId(r, id).0
  }

  function Run(r: Registry, ops: seq<Op>): Registry {
    Folded(Step, r, ops)
  }

  /** Every control that a run ever registers, in order. */
  function Registered(r: Registry, ops: seq<Op>): seq<Ctl>
    decreases |ops|
  {
    if ops == [] then []
    else
      var r' := Step(r, ops[0]);
      (if ops[0].OpAdd? && |r'.ctls| > |r.ctls| then [r'.ctls[|r.ctls|]] else []) + Registered(r', ops[1..])
  }

  /** Non-empty ranges of element numbers, one after the other. */
  predicate Ascending(ctls: seq<Ctl>) {
    && (forall i :: 0 <= i < |ctls| ==> ctls[i].count >= 1)
    && (forall i, j :: 0 <= i < j < |ctls| ==> ctls[i].numid + ctls[i].count <= ctls[j].numid)
  }

  predicate DistinctIds(ctls: seq<Ctl>) {
    forall i, j :: 0 <= i < j < |ctls| ==> ctls[i].id != ctls[j].id
  }

  predicate Sound(r: Registry) {
    && Ascending(r.ctls) && DistinctIds(r.ctls)
    && forall i :: 0 <= i < |r.ctls| ==> 1 <= r.ctls[i].numid && r.ctls[i].numid + r.ctls[i].count <= r.elems + 1
  }

  lemma AddSound(r: Registry, id: Id, count: nat)
    requires Sound(r) && count >= 1
    ensures Sound(Added(r, id, count).0)
  {
    if FindId(r, id).None? {
      var ctls := Added(r, id, count).0.ctls;
      assert forall i :: 0 <= i < |r.ctls| ==> ctls[i] == r.ctls[i] && ctls[i].id != id;
      assert ctls[|r.ctls|] == Ctl(id, r.elems + 1, count);
    }
  }

  lemma RemoveSound(r: Registry, i: nat)
    requires Sound(r) && i < |r.ctls|
    ensures Sound(RemovedAt(r, i))
  {
    var ctls := RemovedAt(r, i).ctls;
    assert forall j :: 0 <= j < |ctls| ==> ctls[j] == r.ctls[if j < i then j else j + 1];
  }

  lemma StepSound(r: Registry, op: Op)
    requires Sound(r)
    ensures Sound(Step(r, op)) && Step(r, op).elems >= r.elems
  {
    match op
    case OpAdd(id, count) => AddSound(r, id, if count != 0 then count else 1);
    case OpRemove(i) =>
      if i < |r.ctls| {
        RemoveSound(r, i);
      }
    case OpRemoveId(id) =>
      if FindId(r, id).Some? {
        RemoveSound(r, FindId(r, id).value);
      }
  }

  /** The registry stays sound, and no element number is ever handed out twice: the controls that
    * a run registers have ascending ranges beyond all earlier ones, removed or not.
    */
  lemma {:induction false} RunSound(r: Registry, ops: seq<Op>)
    requires Sound(r)
    ensures Sound(Run(r, ops))
    ensures Ascending(Registered(r, ops))
    ensures forall k :: 0 <= k < |Registered(r, ops)| ==> Registered(r, ops)[k].numid > r.elems
    decreases |ops|
  {
    if ops != [] {
      StepSound(r, ops[0]);
      RunSound(Step(r, ops[0]), ops[1..]);
    }
  }

  /** The lookup by element number finds the one control that holds it, if any does. */
  lemma NumidIsUnique(r: Registry, numid: nat, i: nat)
    requires Sound(r) && i < |r.ctls|
    ensures Holds(r.ctls[i], numid) <==> FindNumidFrom(r.ctls, numid, 0) == Some(i)
  {
  }

  /** Likewise the lookup by identity. */
  lemma IdIsUnique(r: Registry, i: nat)
    requires Sound(r) && i < |r.ctls|
    ensures FindId(r, r.ctls[i].id) == Some(i)
  {
  }

  /** A number is found exactly in a range that begins with the control's own and has its count. */
  lemma NumidPlainly(r: Registry, numid: nat, i: nat)
    requires Sound(r) && i < |r.ctls|
    ensures FindNumidFrom(r.ctls, numid, 0) == Some(i)
       <==> r.ctls[i].numid <= numid && numid < r.ctls[i].numid + r.ctls[i].count
  {
    NumidIsUnique(r, numid, i);
  }

  /** The registry of a new card, and what a step of a run does, a count of 0 standing for 1. */
  lemma StepPlainly(r: Registry, op: Op)
    ensures EMPTY.ctls == [] && EMPTY.elems == 0
    ensures Step(r, op) == match op
      case OpAdd(id, count) => Added(r, id, if count == 0 then 1 else count).0
      case OpRemove(i) => (if i < |r.ctls| then RemovedAt(r, i) else r)
      case OpRemoveId(id) => RemovedId(r, id).0
  {
  }

  /** The controls of a card that was new before a run: each has a number of its own for each of its
    * elements, at least one, and no two have a number or an identity in common.
    */
  lemma NewCardRuns(ops: seq<Op>, i: nat, j: nat)
    requires i < j < |Run(EMPTY, ops).ctls|
    ensures var a, b := Run(EMPTY, ops).ctls[i], Run(EMPTY, ops).ctls[j];
      && 1 <= a.numid && 1 <= a.count && 1 <= b.count && a.numid + a.count <= b.numid
      && b.numid + b.count <= Run(EMPTY, ops).elems + 1 && a.id != b.id
  {
    RunSound(EMPTY, ops);
  }

  /** Removing what was just added restores the list, but not the numbers. */
  lemma AddThenRemove(r: Registry, id: Id, count: nat)
    requires Sound(r) && count >= 1 && FindId(r, id).None?
    ensures var added := Added(r, id, count).0; RemovedId(added, id) == (Registry(r.ctls, r.elems + count), 0)
  {
    var added := Added(r, id, count).0;
    var k := FindId(added, id);
    assert added.ctls[|r.ctls|].id == id;
    assert k == Some(|r.ctls|);
    assert added.ctls[..|r.ctls|] + added.ctls[|r.ctls| + 1..] == r.ctls;
  }

  // ---- The operations on the list ----

  /** An addition of a new identity goes to the end of the list with the next numbers; a known one is
    * refused with -16.
    */
  lemma AddPlainly(r: Registry, id: Id, count: nat)
    ensures var (r', err) := Added(r, id, count);
      if exists k :: 0 <= k < |r.ctls| && r.ctls[k].id == id then r' == r && err == -16
      else err == 0 && r'.elems == r.elems + count && r'.ctls == r.ctls + [Ctl(id, r.elems + 1, count)]
  {
  }

  /** A removal takes out that one control: all before and all behind it remain, and no number is free
    * again.
    */
  lemma RemovePlainly(r: Registry, i: nat)
    requires i < |r.ctls|
    ensures var r' := RemovedAt(r, i);
      && r'.elems == r.elems && |r'.ctls| == |r.ctls| - 1
      && (forall k :: 0 <= k < i ==> r'.ctls[k] == r.ctls[k])
      && (forall k :: i < k < |r.ctls| ==> r'.ctls[k-1] == r.ctls[k])
  {
  }

  /** By identity: the control that has it is gone, the others remain; without one the answer is -19. */
  lemma RemoveIdPlainly(r: Registry, id: Id)
    requires Sound(r)
    ensures var (r', err) := RemovedId(r, id);
      && r'.elems == r.elems && (forall c :: c in r'.ctls <==> c in r.ctls && c.id != id)
      && err == if exists k :: 0 <= k < |r.ctls| && r.ctls[k].id == id then 0 else -19
  {
    var found := FindId(r, id);
    if found.Some? {
      forall c
        ensures c in RemovedAt(r, found.value).ctls <==> c in r.ctls && c.id != id
      {
        RemovedMember(r, found.value, c);
      }
    }
  }

  lemma RemovedMember(r: Registry, i: nat, c: Ctl)
    requires Sound(r) && i < |r.ctls|
    ensures c in RemovedAt(r, i).ctls <==> c in r.ctls && c.id != r.ctls[i].id
  {
    var ctls := RemovedAt(r, i).ctls;
    if c in r.ctls && c.id != r.ctls[i].id {
      var k :| 0 <= k < |r.ctls| && r.ctls[k] == c;
      assert c == ctls[if k < i then k else k - 1];
    }
    if c in ctls {
      var k :| 0 <= k < |ctls| && ctls[k] == c;
      assert c == r.ctls[if k < i then k else k + 1];
    }
  }

  /** A name without the ending gets it, one with it stays as it is, and both are cut to 43 characters. */
  lemma JackNamePlainly(name: string)
    ensures var ends := |name| >= 5 && name[|name| - 5..] == " Jack";
      var named := if ends then name else name + " Jack";
      JackName(name) == if |named| <= 43 then named else named[..43]
  {
  }

  /** A new jack control is asked for on the card's own interface, as device and subdevice 0. */
  lemma JackIdPlainly(name: string, index: nat)
    ensures var id := JackId(name, index);
      id.iface == 0 && id.device == 0 && id.subdevice == 0 && id.index == index && id.name == name
  {
  }
}
