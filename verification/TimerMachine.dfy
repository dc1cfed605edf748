/** The timer of skynet_timer.c in place: arrays of lists and a 32-bit clock.
    Every method does to the lists what the reference queue says. */
module TimerMachine {
  import opened Common
  import opened TimerWheel

  // -------------------------------------------------- the lists of all slots

  type Lists = imap<Slot, seq<Node>>

  /** Where each expire time belongs. */
  type Plan = imap<nat, Slot>

  ghost predicate Full(l: Lists)
  {
    forall s :: s in l <==> ValidSlot(s)
  }

  ghost predicate Stamped(l: Lists, pl: Plan)
  {
    forall s, n :: s in l && n in l[s] ==> n.expire in pl && pl[n.expire] in l
  }

  /** `link` */
  ghost function Link(l: Lists, s: Slot, node: Node): Lists
    requires s in l
  {
    l[s := l[s] + [node]]
  }

  ghost predicate Planned(pl: Plan, l: Lists, nodes: seq<Node>)
  {
    forall n :: n in nodes ==> n.expire in pl && pl[n.expire] in l
  }

  /** `add_node` for one node after the other. */
  ghost function Relink(l: Lists, nodes: seq<Node>, pl: Plan): (l': Lists)
    requires Planned(pl, l, nodes)
    ensures l'.Keys == l.Keys
    decreases |nodes|
  {
    if nodes == [] then l else
    assert nodes[0] in nodes;
    var l1 := Link(l, pl[nodes[0].expire], nodes[0]);
    assert l1.Keys == l.Keys;
    Relink(l1, nodes[1..], pl)
  }

  /** Slot `s` holds the pending nodes with expire time `e`, in order of
      insertion, if that is their place, and none of them otherwise. */
  ghost predicate Fit(l: Lists, pl: Plan, p: seq<Entry>, s: Slot, e: nat)
    requires s in l && e in pl
  {
    Filter(l[s], e) == if s == pl[e] then Select(p, e) else []
  }

  /** Every pending node is where `add_node` would put it now, and nodes with
      the same deadline are in order of insertion. */
  ghost predicate Arranged(l: Lists, pl: Plan, p: seq<Entry>)
  {
    forall s: Slot, e: nat {:trigger Fit(l, pl, p, s, e)} :: s in l && e in pl ==> Fit(l, pl, p, s, e)
  }

  ghost predicate NodeFor(node: Node, x: Entry)
  {
    node == Node(x.deadline % W, x.id)
  }

  lemma {:induction false} LinkArranged(l: Lists, pl: Plan, p: seq<Entry>, x: Entry, node: Node)
    requires NodeFor(node, x) && node.expire in pl && pl[node.expire] in l && Arranged(l, pl, p)
    ensures Arranged(Link(l, pl[node.expire], node), pl, p + [x])
  {
    var l' := Link(l, pl[node.expire], node);
    forall s: Slot, e: nat | s in l' && e in pl ensures Fit(l', pl, p + [x], s, e) {
      assert Fit(l, pl, p, s, e);
      SelectApp(p, x, e);
      FilterApp(l[s], [node], e);
      FilterOne(node, e);
    }
  }

  /** The nodes that belong into slot `s`. */
  ghost function Sub(nodes: seq<Node>, pl: Plan, s: Slot): seq<Node>
  {
    if nodes == [] then [] else
    (if nodes[0].expire in pl && pl[nodes[0].expire] == s then [nodes[0]] else []) + Sub(nodes[1..], pl, s)
  }

  lemma {:induction false} RelinkAt(l: Lists, nodes: seq<Node>, pl: Plan, s: Slot)
    requires Planned(pl, l, nodes) && s in l
    ensures Relink(l, nodes, pl)[s] == l[s] + Sub(nodes, pl, s)
    decreases |nodes|
  {
    if nodes != [] {
      var n, sub := nodes[0], Sub(nodes[1..], pl, s);
      assert n in nodes;
      RelinkAt(Link(l, pl[n.expire], n), nodes[1..], pl, s);
      if pl[n.expire] == s { NodeAssoc(l[s], n, sub); } else { assert [] + sub == sub; }
    }
  }

  lemma NodeAssoc(a: seq<Node>, n: Node, b: seq<Node>)
    ensures a + [n] + b == a + ([n] + b)
  {
  }

  lemma {:induction false} FilterSub(nodes: seq<Node>, pl: Plan, s: Slot, e: nat)
    requires (forall n :: n in nodes ==> n.expire in pl) && e in pl
    ensures Filter(Sub(nodes, pl, s), e) == if s == pl[e] then Filter(nodes, e) else []
    decreases |nodes|
  {
    if nodes != [] {
      var n := nodes[0];
      assert n in nodes;
      FilterSub(nodes[1..], pl, s, e);
      var sub := Sub(nodes[1..], pl, s);
      if pl[n.expire] == s {
        FilterApp([n], sub, e);
        FilterOne(n, e);
      } else {
        assert [] + sub == sub;
      }
    }
  }

  lemma {:induction false} RelinkStamped(l: Lists, nodes: seq<Node>, pl: Plan)
    requires Planned(pl, l, nodes) && Stamped(l, pl)
    ensures Stamped(Relink(l, nodes, pl), pl)
    decreases |nodes|
  {
    if nodes != [] {
      assert nodes[0] in nodes;
      RelinkStamped(Link(l, pl[nodes[0].expire], nodes[0]), nodes[1..], pl);
    }
  }

  /** One list is linked again after the plan has changed; no other pending
      node's place has. */
  lemma {:induction false} MoveArranged(l: Lists, pl: Plan, pl': Plan, f: Slot, p: seq<Entry>)
    requires f in l && pl'.Keys == pl.Keys && Arranged(l, pl, p) && Planned(pl', l, l[f])
    requires forall e: nat :: e in pl && Select(p, e) != [] && pl[e] != f ==> pl'[e] == pl[e]
    ensures Arranged(Relink(l[f := []], l[f], pl'), pl', p)
  {
    var l0 := l[f := []];
    var l' := Relink(l0, l[f], pl');
    forall s: Slot, e: nat | s in l' && e in pl' ensures Fit(l', pl', p, s, e) {
      assert Fit(l, pl, p, s, e) && Fit(l, pl, p, f, e);
      RelinkAt(l0, l[f], pl', s);
      FilterApp(l0[s], Sub(l[f], pl', s), e);
      FilterSub(l[f], pl', s, e);
      Moves(Filter(l0[s], e), Filter(l[f], e), Select(p, e), s, f, pl[e], pl'[e]);
    }
  }

  /** What was in the moved list is now, and only, where it is planned. */
  lemma Moves(kept: seq<Node>, moved: seq<Node>, all: seq<Node>, s: Slot, f: Slot, was: Slot, now: Slot)
    requires kept == if s == f || s != was then [] else all
    requires moved == if f == was then all else []
    requires all != [] && was != f ==> now == was
    ensures kept + (if s == now then moved else []) == if s == now then all else []
  {
  }

  lemma {:induction false} SameArranged(l: Lists, pl: Plan, pl': Plan, p: seq<Entry>)
    requires pl'.Keys == pl.Keys && Arranged(l, pl, p)
    requires forall e: nat :: e in pl && Select(p, e) != [] ==> pl'[e] == pl[e]
    ensures Arranged(l, pl', p)
  {
    forall s: Slot, e: nat | s in l && e in pl' ensures Fit(l, pl', p, s, e) { assert Fit(l, pl, p, s, e); }
  }

  /** The list of the only time planned there holds the due timers. */
  lemma {:induction false} DueList(l: Lists, pl: Plan, f: Slot, now: nat, p: seq<Entry>, rest: seq<Entry>)
    requires f in l && Stamped(l, pl) && Arranged(l, pl, p) && now in pl
    requires forall e: nat :: e in pl ==> (pl[e] == f <==> e == now)
    requires forall e: nat :: e in pl ==> Select(rest, e) == if e == now then [] else Select(p, e)
    ensures l[f] == Select(p, now) && Arranged(l[f := []], pl, rest)
  {
    forall n | n in l[f] ensures n.expire == now {
      FilterIn(l[f], n);
      assert Fit(l, pl, p, f, n.expire);
    }
    FilterAll(l[f], now);
    assert Fit(l, pl, p, f, now);
    var l' := l[f := []];
    forall s: Slot, e: nat | s in l' && e in pl ensures Fit(l', pl, rest, s, e) { assert Fit(l, pl, p, s, e); }
  }

  // ---------------------------------------------------------- the actual plan

  ghost function PlanAt(now: nat): (pl: Plan)
    requires now < W
    ensures forall e: nat :: e in pl <==> e < W
  {
    imap e: nat | e < W :: Place(e, now)
  }

  lemma {:induction false} PlanValid(now: nat, l: Lists)
    requires now < W && Full(l)
    ensures forall e: nat :: e in PlanAt(now) ==> PlanAt(now)[e] in l
  {
  }

  /** Pending timers whose place changes with the clock are in the moved list. */
  lemma {:induction false} PlanStays(q: Queue, now: nat, ct: nat)
    requires Window(q) && (forall x :: x in q.pending ==> x.deadline > q.now)
    requires now == q.now % W && ct == NextTick(now)
    ensures forall e: nat :: e in PlanAt(now) && Select(q.pending, e) != [] && Some(PlanAt(now)[e]) != Moved(ct) ==>
      PlanAt(ct)[e] == PlanAt(now)[e]
  {
    forall e: nat | e in PlanAt(now) && Select(q.pending, e) != [] && Some(PlanAt(now)[e]) != Moved(ct)
      ensures PlanAt(ct)[e] == PlanAt(now)[e]
    {
      SelectIn(q.pending, e);
      var x :| x in q.pending && x.deadline % W == e;
      WindowAhead(q.now, x.deadline);
      PlaceStays(e, now);
    }
  }

  lemma {:induction false} PlanDue(now: nat)
    requires now < W
    ensures forall e: nat :: e in PlanAt(now) ==> (PlanAt(now)[e] == NearSlot(now % TIME_NEAR) <==> e == now)
  {
    forall e: nat | e in PlanAt(now)
      ensures PlanAt(now)[e] == NearSlot(now % TIME_NEAR) <==> e == now { DueSlot(e, now); }
  }

  lemma MovedValid(ct: nat)
    ensures Moved(ct).Some? ==> ValidSlot(Moved(ct).v) && Moved(ct).v.FarSlot?
  {
    assert Scan(ct, 4) == None;
    assert Scan(ct, 3).Some? ==> ValidSlot(Scan(ct, 3).v);
    assert Scan(ct, 2).Some? ==> ValidSlot(Scan(ct, 2).v);
    assert Scan(ct, 1).Some? ==> ValidSlot(Scan(ct, 1).v);
  }

  lemma {:induction false} RestSelect(q: Queue, now: nat)
    requires Window(q) && now == q.now % W
    ensures forall e: nat :: e in PlanAt(now) ==> Select(Rest(q.pending, q.now), e) == if e == now then []
      else Select(q.pending, e)
  {
    forall e: nat | e in PlanAt(now)
      ensures Select(Rest(q.pending, q.now), e) == if e == now then [] else Select(q.pending, e)
    {
      TakeSelect(q.pending, q.now, e);
    }
  }

  lemma {:induction false} AddKeeps(q: Queue, d: nat)
    requires QueueInv(q) && Window(q) && 0 < d < HALF
    ensures QueueInv(Add(q, d)) && Window(Add(q, d))
  {
    AddInv(q, d);
  }

  lemma {:induction false} TickKeeps(q: Queue)
    requires QueueInv(q) && Window(q) && forall x :: x in q.pending ==> x.deadline > q.now
    ensures QueueInv(Tick(q)) && Window(Tick(q))
  {
    TickInv(q);
  }

  lemma {:induction false} TakeKeeps(q: Queue)
    requires QueueInv(q) && Window(q)
    ensures QueueInv(Take(q)) && Window(Take(q))
  {
    TakeInv(q);
    DueRest(q.pending, q.now);
  }

  /** The loop of `add_node` finds the wheel. */
  lemma {:induction false} FoundPlace(e: nat, now: nat, i: nat)
    requires e < W && now < W && i <= 3 && e / Unit(i) != now / Unit(i)
    requires i < 3 ==> e / Unit(i + 1) == now / Unit(i + 1)
    ensures Place(e, now) == FarSlot(i, e / Unit(i) % TIME_LEVEL)
  {
    WheelIs(e, now, i + 1);
    PlaceOnWheel(e, now);
  }

  /** Addition of 32-bit numbers. */
  function AddClock(t: nat, d: nat): (r: nat)
    requires t < W && d < HALF
    ensures r < W
  {
    if t + d < W then t + d else t + d - W
  }

  lemma ClockAdd(now: nat, d: nat)
    requires d < HALF
    ensures AddClock(now % W, d) == (now + d) % W
  {
  }

  /** The 32-bit clock shows the time of the queue. */
  ghost predicate InStep(time: nat, q: Queue)
  {
    time == q.now % W
  }

  lemma NewNode(time: nat, q: Queue, d: nat, id: nat)
    requires InStep(time, q) && d < HALF
    ensures NodeFor(Node(AddClock(time, d), id), Entry(q.now + d, id))
  {
    ClockAdd(q.now, d);
  }

  lemma ClockTick(time: nat, q: Queue)
    requires InStep(time, q)
    ensures InStep(NextTick(time), Tick(q))
  {
  }

  lemma RestNext(ct: nat, i: nat)
    requires i < 3
    ensures ct / Unit(i) / TIME_LEVEL == ct / Unit(i + 1)
  {
  }

  /** The loop of `timer_shift`: which list to move. */
  method FindMoved(ct: nat) returns (m: Opt<Slot>)
    ensures m == Moved(ct)
  {
    if ct == 0 { return Some(FarSlot(3, 0)); }
    var i := 0;
    var rest := ct / Unit(0);
    while i < 4 && ct % Unit(i) == 0
      invariant 0 <= i <= 4 && (i < 4 ==> rest == ct / Unit(i)) && Scan(ct, i) == Scan(ct, 0)
    {
      var idx := rest % TIME_LEVEL;
      if idx != 0 { return Some(FarSlot(i, idx)); }
      if i < 3 { RestNext(ct, i); }
      rest := rest / TIME_LEVEL;
      i := i + 1;
    }
    m := None;
  }

  // -------------------------------------------------------------------- timer

  ghost predicate Delays(ds: seq<nat>)
  {
    forall i :: 0 <= i < |ds| ==> 0 < ds[i] < HALF
  }

  /** The nodes `out` are what was fired between two logs. */
  ghost predicate FiredAs(out: seq<Node>, before: seq<Firing>, after: seq<Firing>)
  {
    before <= after && |after| == |before| + |out| && forall k :: 0 <= k < |out| ==> out[k].id == after[|before| + k].id
  }

  lemma {:induction false} FiredCat(a: seq<Node>, b: seq<Node>, f0: seq<Firing>, f1: seq<Firing>, f2: seq<Firing>)
    requires FiredAs(a, f0, f1) && FiredAs(b, f1, f2)
    ensures FiredAs(a + b, f0, f2)
  {
    forall k | 0 <= k < |a + b| ensures (a + b)[k].id == f2[|f0| + k].id {
      if k < |a| { assert f2[|f0| + k] == f1[|f0| + k]; } else { assert f2[|f0| + k] == f2[|f1| + (k - |a|)]; }
    }
  }

  lemma {:induction false} NothingPlaced(l: Lists, pl: Plan)
    requires forall s :: s in l ==> l[s] == []
    ensures Stamped(l, pl) && Arranged(l, pl, [])
  {
    forall s: Slot, e: nat | s in l && e in pl ensures Fit(l, pl, [], s, e) { }
  }

  lemma Dated(q: Queue, d: nat)
    ensures Add(q, d).added == q.added + [q.now + d]
  {
  }

  class Timer {
    const near: array<seq<Node>>
    const t: array2<seq<Node>>
    var time: nat
    ghost var q: Queue

    predicate Dims()
    {
      near.Length == TIME_NEAR && t.Length0 == 4 && t.Length1 == TIME_LEVEL
    }

    predicate Shape()
      reads this`time
    {
      Dims() && time < W
    }

    ghost function At(s: Slot): seq<Node>
      requires ValidSlot(s) && Dims()
      reads near, t
    {
      match s
      case NearSlot(k) => near[k]
      case FarSlot(level, k) => t[level, k]
    }

    ghost function AllLists(): (l: Lists)
      requires Dims()
      reads near, t
      ensures Full(l)
    {
      imap s | ValidSlot(s) :: At(s)
    }

    /** The pending timers `p` are where `add_node` would put them now. */
    ghost predicate Placed(p: seq<Entry>)
      requires Shape()
      reads this`time, near, t
    {
      Stamped(AllLists(), PlanAt(time)) && Arranged(AllLists(), PlanAt(time), p)
    }

    /** The clock and the queue belong together. */
    ghost predicate InTime()
      reads this
    {
      QueueInv(q) && Window(q) && InStep(time, q)
    }

    ghost predicate Valid()
      reads this, near, t
    {
      Shape() && InTime() && Placed(q.pending)
    }

    /** `timer_create_timer` */
    constructor ()
      ensures Valid() && q == Queue(0, [], [], []) && fresh(near) && fresh(t)
    {
      near := new seq<Node>[TIME_NEAR](_ => []);
      t := new seq<Node>[4, TIME_LEVEL]((_, _) => []);
      time := 0;
      q := Queue(0, [], [], []);
      new;
      NothingPlaced(AllLists(), PlanAt(0));
    }

    /** `add_node` */
    method AddNode(node: Node)
      requires Shape() && node.expire < W
      modifies near, t
      ensures AllLists() == old(Link(AllLists(), Place(node.expire, time), node))
    {
      if node.expire / TIME_NEAR == time / TIME_NEAR {
        LinkNear(node.expire % TIME_NEAR, node);
      } else {
        var i := 0;
        while i < 3 && node.expire / Unit(i + 1) != time / Unit(i + 1)
          invariant 0 <= i <= 3
          invariant forall j :: 0 < j <= i ==> node.expire / Unit(j) != time / Unit(j)
        {
          i := i + 1;
        }
        FoundPlace(node.expire, time, i);
        LinkFar(i, node.expire / Unit(i) % TIME_LEVEL, node);
      }
    }

    method LinkNear(k: nat, node: Node)
      requires Shape() && k < TIME_NEAR
      modifies near
      ensures AllLists() == old(Link(AllLists(), NearSlot(k), node))
    {
      near[k] := near[k] + [node];
      assert forall s :: ValidSlot(s) && s != NearSlot(k) ==> At(s) == old(At(s));
    }

    method LinkFar(i: nat, k: nat, node: Node)
      requires Shape() && i < 4 && k < TIME_LEVEL
      modifies t
      ensures AllLists() == old(Link(AllLists(), FarSlot(i, k), node))
    {
      t[i, k] := t[i, k] + [node];
      assert forall s :: ValidSlot(s) && s != FarSlot(i, k) ==> At(s) == old(At(s));
    }

    method LinkNode(node: Node, ghost x: Entry)
      requires Valid() && NodeFor(node, x)
      modifies near, t
      ensures q == old(q) && InTime() && Placed(q.pending + [x])
    {
      ghost var l, pl := AllLists(), PlanAt(time);
      PlanValid(time, l);
      LinkArranged(l, pl, q.pending, x, node);
      AddNode(node);
    }

    /** `timer_add`; timers are numbered in the order in which they are added. */
    method TimerAdd(d: nat, id: nat)
      requires Valid() && 0 < d < HALF && id == |q.added|
      modifies this, near, t
      ensures Valid() && q == Add(old(q), d) && time == old(time)
      ensures q.added == old(q.added) + [old(q.now) + d]
    {
      var node := NewTimer(d, id);
      ghost var q0, x := q, Entry(q.now + d, id);
      LinkNode(node, x);
      AddQueue(d, x);
      Dated(q0, d);
    }

    method NewTimer(d: nat, id: nat) returns (node: Node)
      requires InTime() && d < HALF
      ensures NodeFor(node, Entry(q.now + d, id))
    {
      node := Node(AddClock(time, d), id);
      NewNode(time, q, d, id);
    }

    ghost method AddQueue(d: nat, x: Entry)
      requires Shape() && InTime() && 0 < d < HALF && x == Entry(q.now + d, |q.added|) && Placed(q.pending + [x])
      modifies this`q
      ensures Valid() && q == Add(old(q), d)
    {
      ghost var p := q.pending + [x];
      AddKeeps(q, d);
      q := Add(q, d);
      assert Placed(p) && q.pending == p;
    }

    /** `move_list`: every node of the list is added again. */
    method MoveList(level: nat, idx: nat)
      requires Shape() && level < 4 && idx < TIME_LEVEL
      requires Planned(PlanAt(time), AllLists(), t[level, idx])
      modifies near, t
      ensures var l := old(AllLists()); var f := FarSlot(level, idx);
        AllLists() == Relink(l[f := []], l[f], PlanAt(time))
    {
      var current := t[level, idx];
      ClearFar(level, idx);
      AddAgain(current);
    }

    /** `link_clear` on a list of the outer wheels */
    method ClearFar(level: nat, idx: nat)
      requires Dims() && level < 4 && idx < TIME_LEVEL
      modifies t
      ensures AllLists() == old(AllLists())[FarSlot(level, idx) := []]
    {
      t[level, idx] := [];
      assert forall s :: ValidSlot(s) && s != FarSlot(level, idx) ==> At(s) == old(At(s));
    }

    /** The loop of `move_list`. */
    method AddAgain(current: seq<Node>)
      requires Shape() && Planned(PlanAt(time), AllLists(), current)
      modifies near, t
      ensures AllLists() == old(Relink(AllLists(), current, PlanAt(time)))
    {
      ghost var l, pl := AllLists(), PlanAt(time);
      for i := 0 to |current|
        invariant Planned(pl, AllLists(), current[i..]) &&
          Relink(AllLists(), current[i..], pl) == Relink(l, current, pl)
      {
        assert current[i] in current;
        assert current[i..][0] == current[i] && current[i..][1..] == current[i + 1..];
        AddNode(current[i]);
      }
    }

    /** Moves the list that the new time concerns. */
    method MoveOne(level: nat, idx: nat, ghost pl: Plan)
      requires Shape() && level < 4 && idx < TIME_LEVEL && (forall e: nat :: e in pl <==> e < W)
      requires Stamped(AllLists(), pl) && Arranged(AllLists(), pl, q.pending)
      requires forall e: nat :: e in pl && Select(q.pending, e) != [] && pl[e] != FarSlot(level, idx) ==>
        PlanAt(time)[e] == pl[e]
      requires forall e: nat :: e in pl ==> pl[e] in AllLists()
      modifies near, t
      ensures Placed(q.pending)
    {
      ghost var l, f := AllLists(), FarSlot(level, idx);
      PlanValid(time, l);
      MoveArranged(l, pl, PlanAt(time), f, q.pending);
      RelinkStamped(l[f := []], l[f], PlanAt(time));
      MoveList(level, idx);
    }

    /** `timer_shift`: the clock moves, and with it at most one list. */
    method TimerShift()
      requires Valid() && forall x :: x in q.pending ==> x.deadline > q.now
      modifies this, near, t
      ensures Valid() && q == Tick(old(q))
    {
      Advance(NextTick(time));
      TickQueue();
    }

    /** The queue follows the clock. */
    ghost method TickQueue()
      requires QueueInv(q) && Window(q) && InStep(time, Tick(q)) && forall x :: x in q.pending ==> x.deadline > q.now
      modifies this`q
      ensures InTime() && q == Tick(old(q))
    {
      TickKeeps(q);
      q := Tick(q);
    }

    method Advance(ct: nat)
      requires Shape() && Window(q) && (forall x :: x in q.pending ==> x.deadline > q.now)
      requires InStep(time, q) && ct == NextTick(time)
      requires Placed(q.pending)
      modifies near, t, this`time
      ensures Shape() && Placed(q.pending) && InStep(time, Tick(q))
    {
      ghost var pl := PlanAt(time);
      ClockTick(time, q);
      PlanStays(q, time, ct);
      PlanValid(time, AllLists());
      PlanValid(ct, AllLists());
      MovedValid(ct);
      time := ct;
      var m := FindMoved(ct);
      if m.Some? {
        MoveOne(m.v.level, m.v.k, pl);
      } else {
        SameArranged(AllLists(), pl, PlanAt(time), q.pending);
      }
    }

    /** `timer_execute`, up to the point where the lock is released: the due
        list is taken, to be dispatched. */
    method TakeDueList() returns (current: seq<Node>)
      requires Valid()
      modifies this, near
      ensures Valid() && q == Take(old(q)) && |current| == |Due(old(q).pending, old(q).now)|
      ensures forall k :: 0 <= k < |current| ==> current[k].id == Due(old(q).pending, old(q).now)[k].id
    {
      TakeKeeps(q);
      current := ClearDue();
      DueSelect(q.pending, q.now);
      q := Take(q);
    }

    method ClearDue() returns (current: seq<Node>)
      requires Shape() && Window(q) && InStep(time, q)
      requires Placed(q.pending)
      modifies near
      ensures Placed(Rest(q.pending, q.now))
      ensures current == Select(q.pending, time)
    {
      var idx := time % TIME_NEAR;
      ghost var l, f := AllLists(), NearSlot(idx);
      PlanDue(time);
      RestSelect(q, time);
      DueList(l, PlanAt(time), f, time, q.pending, Rest(q.pending, q.now));
      current := near[idx];
      ClearNear(idx);
    }

    /** `link_clear` */
    method ClearNear(idx: nat)
      requires Dims() && idx < TIME_NEAR
      modifies near
      ensures AllLists() == old(AllLists())[NearSlot(idx) := []]
    {
      near[idx] := [];
      assert forall s :: ValidSlot(s) && s != NearSlot(idx) ==> At(s) == old(At(s));
    }

    /** The list of the current time is that of the due timers. */
    lemma DueNow()
      requires Valid()
      ensures |near[time % TIME_NEAR]| == |Due(q.pending, q.now)|
    {
      ghost var l, f := AllLists(), NearSlot(time % TIME_NEAR);
      PlanDue(time);
      RestSelect(q, time);
      DueList(l, PlanAt(time), f, time, q.pending, Rest(q.pending, q.now));
      DueSelect(q.pending, q.now);
    }

    /** Timers that other threads add. */
    method AddMany(ds: seq<nat>, id: nat)
      requires Valid() && id == |q.added| && Delays(ds)
      modifies this, near, t
      ensures Valid() && q == AddAll(old(q), ds) && time == old(time)
    {
      for i := 0 to |ds|
        invariant Valid() && q == AddAll(old(q), ds[..i]) && |q.added| == id + i && time == old(time)
      {
        AddAllNext(old(q), ds, i);
        TimerAdd(ds[i], id + i);
      }
      assert ds[..|ds|] == ds;
    }

    /** `timer_execute`; other threads add the timers `ds` while the lock is
        released to dispatch, and the loop then finds the list empty. */
    method TimerExecute(ds: seq<nat>, id: nat) returns (out: seq<Node>, next: nat)
      requires Valid() && id == |q.added| && Delays(ds)
      modifies this, near, t
      ensures Valid() && q == Executed(old(q), ds) && time == old(time) && next == |q.added|
      ensures FiredAs(out, old(q).fired, q.fired)
    {
      out, next := [], id;
      DueNow();
      if near[time % TIME_NEAR] != [] {
        out := TakeDueList();
        AddMany(ds, id);
        next := id + |ds|;
        AddedAhead(old(q), ds);
        DueNow();
        assert near[time % TIME_NEAR] == [];
      }
    }

    /** `timer_update`; other threads add the timers `ds1` and `ds2` while due
        timers are dispatched. */
    method TimerUpdate(ds1: seq<nat>, ds2: seq<nat>, id: nat) returns (out: seq<Node>)
      requires Valid() && id == |q.added| && Delays(ds1) && Delays(ds2)
      modifies this, near, t
      ensures Valid() && q == Executed(Tick(Executed(old(q), ds1)), ds2)
      ensures FiredAs(out, old(q).fired, q.fired)
    {
      var first, second, next;
      first, next := TimerExecute(ds1, id);
      ghost var fired := q.fired;
      ExecutedAhead(old(q), ds1);
      TimerShift();
      second, next := TimerExecute(ds2, next);
      FiredCat(first, second, old(q).fired, fired, q.fired);
      out := first + second;
    }
  }
}
