/** The timer of skynet_timer.c: five wheels of lists indexed by parts of a
    32-bit clock.  It behaves like a queue ordered by deadline and then by
    insertion: a timer fires exactly once, exactly when the clock says so. */
module TimerWheel {
  import opened Common

  // ------------------------------------------------------- what a timer is for

  datatype Entry = Entry(deadline: nat, id: nat)

  datatype Firing = Firing(clock: nat, id: nat)

  /** The reference: an unbounded clock, the deadline of every timer ever added,
      the pending timers in order of insertion, and the log of fired ones. */
  datatype Queue = Queue(now: nat, added: seq<nat>, pending: seq<Entry>, fired: seq<Firing>)

  function Add(q: Queue, d: nat): Queue
  {
    q.(added := q.added + [q.now + d], pending := q.pending + [Entry(q.now + d, |q.added|)])
  }

  /** The pending timers whose time is `t`, in order. */
  function Due(p: seq<Entry>, t: nat): (r: seq<Firing>)
    ensures forall k :: 0 <= k < |r| ==> r[k].clock == t && Entry(t, r[k].id) in p
  {
    if p == [] then [] else
    (if p[0].deadline == t then [Firing(t, p[0].id)] else []) + Due(p[1..], t)
  }

  function Rest(p: seq<Entry>, t: nat): seq<Entry>
  {
    if p == [] then [] else
    (if p[0].deadline == t then [] else [p[0]]) + Rest(p[1..], t)
  }

  function Take(q: Queue): Queue
  {
    q.(pending := Rest(q.pending, q.now), fired := q.fired + Due(q.pending, q.now))
  }

  function Tick(q: Queue): Queue
  {
    q.(now := q.now + 1)
  }

  /** Timers added one after the other. */
  function AddAll(q: Queue, ds: seq<nat>): (q': Queue)
    ensures |q'.added| == |q.added| + |ds| && q'.now == q.now && q'.fired == q.fired
    decreases |ds|
  {
    if ds == [] then q else Add(AddAll(q, ds[..|ds| - 1]), ds[|ds| - 1])
  }

  lemma {:induction false} AddAllNext(q: Queue, ds: seq<nat>, i: nat)
    requires i < |ds|
    ensures AddAll(q, ds[..i + 1]) == Add(AddAll(q, ds[..i]), ds[i])
  {
    assert ds[..i + 1][..i] == ds[..i] && ds[..i + 1][i] == ds[i];
  }

  /** What is due is taken; if anything is, the timers `ds` are added meanwhile. */
  function Executed(q: Queue, ds: seq<nat>): Queue
  {
    if Due(q.pending, q.now) == [] then q else AddAll(Take(q), ds)
  }

  lemma {:induction false} DueNone(p: seq<Entry>, t: nat)
    ensures Due(p, t) == [] <==> forall e :: e in p ==> e.deadline != t
    decreases |p|
  {
    if p != [] {
      DueNone(p[1..], t);
      assert p == [p[0]] + p[1..];
    }
  }

  /** Nothing that was added is due already. */
  lemma {:induction false} AddedAhead(q: Queue, ds: seq<nat>)
    requires QueueInv(q) && forall i :: 0 <= i < |ds| ==> ds[i] > 0
    ensures var q' := AddAll(Take(q), ds);
      QueueInv(q') && Due(q'.pending, q'.now) == [] && forall e :: e in q'.pending ==> e.deadline > q.now
    decreases |ds|
  {
    var q' := AddAll(Take(q), ds);
    if ds == [] {
      TakeInv(q);
    } else {
      AddedAhead(q, ds[..|ds| - 1]);
      AddInv(AddAll(Take(q), ds[..|ds| - 1]), ds[|ds| - 1]);
    }
    DueNone(q'.pending, q'.now);
  }

  lemma {:induction false} ExecutedAhead(q: Queue, ds: seq<nat>)
    requires QueueInv(q) && forall i :: 0 <= i < |ds| ==> ds[i] > 0
    ensures QueueInv(Executed(q, ds)) && forall e :: e in Executed(q, ds).pending ==> e.deadline > q.now
  {
    if Due(q.pending, q.now) == [] { DueNone(q.pending, q.now); } else { AddedAhead(q, ds); }
  }

  /** Ordered by deadline, then by insertion. */
  predicate Before(a: Firing, b: Firing)
  {
    a.clock < b.clock || (a.clock == b.clock && a.id < b.id)
  }

  ghost predicate Sorted(p: seq<Entry>)
  {
    forall i, j :: 0 <= i < j < |p| ==> p[i].id < p[j].id
  }

  ghost predicate QueueInv(q: Queue)
  {
    && Sorted(q.pending)
    && (forall e :: e in q.pending ==> e.id < |q.added| && e.deadline == q.added[e.id] && e.deadline >= q.now)
    && (forall i, j :: 0 <= i < j < |q.fired| ==> Before(q.fired[i], q.fired[j]))
    && (forall f :: f in q.fired ==> f.id < |q.added| && f.clock == q.added[f.id] && f.clock <= q.now)
    && (forall f :: f in q.fired && f.clock == q.now ==> forall e :: e in q.pending ==> e.deadline > q.now)
    && (forall id :: 0 <= id < |q.added| ==>
          (Entry(q.added[id], id) in q.pending <==> Firing(q.added[id], id) !in q.fired))
  }

  lemma {:induction false} AddInv(q: Queue, d: nat)
    requires QueueInv(q) && d > 0
    ensures QueueInv(Add(q, d))
  {
    var q' := Add(q, d);
    forall e | e in q'.pending ensures e.id < |q'.added| && e.deadline == q'.added[e.id] && e.deadline >= q.now { }
    forall id | 0 <= id < |q'.added|
      ensures Entry(q'.added[id], id) in q'.pending <==> Firing(q'.added[id], id) !in q'.fired
    {
      if id < |q.added| { assert q'.added[id] == q.added[id]; }
      else { assert Entry(q.now + d, id) in q'.pending; }
    }
  }

  lemma {:induction false} DueRest(p: seq<Entry>, t: nat)
    ensures forall e :: e in Rest(p, t) <==> e in p && e.deadline != t
    ensures forall f :: f in Due(p, t) <==> f.clock == t && Entry(t, f.id) in p
    decreases |p|
  {
    if p != [] {
      DueRest(p[1..], t);
      assert p == [p[0]] + p[1..];
    }
  }

  lemma {:induction false} FirstIsLeast(p: seq<Entry>, e: Entry)
    requires Sorted(p) && p != [] && e in p[1..]
    ensures p[0].id < e.id
  {
    var j :| 0 <= j < |p[1..]| && p[1..][j] == e;
    assert p[j + 1] == e;
  }

  lemma {:induction false} RestOrder(p: seq<Entry>, t: nat)
    requires Sorted(p)
    ensures Sorted(Rest(p, t))
    decreases |p|
  {
    if p != [] {
      RestOrder(p[1..], t);
      DueRest(p[1..], t);
      var rest := Rest(p[1..], t);
      forall k | 0 <= k < |rest| ensures p[0].id < rest[k].id {
        assert rest[k] in rest;
        FirstIsLeast(p, rest[k]);
      }
    }
  }

  lemma {:induction false} DueOrder(p: seq<Entry>, t: nat)
    requires Sorted(p)
    ensures forall i, j :: 0 <= i < j < |Due(p, t)| ==> Before(Due(p, t)[i], Due(p, t)[j])
    decreases |p|
  {
    if p != [] {
      DueOrder(p[1..], t);
      var due := Due(p[1..], t);
      forall k | 0 <= k < |due| ensures p[0].id < due[k].id { FirstIsLeast(p, Entry(t, due[k].id)); }
    }
  }

  lemma {:induction false} TakeInv(q: Queue)
    requires QueueInv(q)
    ensures QueueInv(Take(q)) && forall e :: e in Take(q).pending ==> e.deadline > q.now
  {
    DueRest(q.pending, q.now);
    DueOrder(q.pending, q.now);
    RestOrder(q.pending, q.now);
    var q' := Take(q);
    var due := Due(q.pending, q.now);
    forall f | f in due ensures Entry(q.now, f.id) in q.pending { }
    forall i, j | 0 <= i < j < |q'.fired| ensures Before(q'.fired[i], q'.fired[j]) {
      if i < |q.fired| <= j {
        assert q.fired[i] in q.fired && q'.fired[j] in due;
      }
    }
    forall id | 0 <= id < |q'.added|
      ensures Entry(q'.added[id], id) in q'.pending <==> Firing(q'.added[id], id) !in q'.fired
    {
      var f := Firing(q.added[id], id);
      assert f in q'.fired <==> f in q.fired || f in due;
    }
  }

  lemma TickInv(q: Queue)
    requires QueueInv(q) && forall e :: e in q.pending ==> e.deadline > q.now
    ensures QueueInv(Tick(q))
  {
  }

  /** What a run of the timer can consist of: timers are added by any thread,
      and the timer thread takes the due list, or moves the clock once the due
      list is empty. */
  datatype Event = AddTimer(d: nat) | TakeDue | MoveClock

  predicate Allowed(q: Queue, ev: Event)
  {
    match ev
    case AddTimer(d) => 0 < d < HALF
    case TakeDue => true
    case MoveClock => Due(q.pending, q.now) == []
  }

  function After(q: Queue, ev: Event): Queue
  {
    match ev
    case AddTimer(d) => Add(q, d)
    case TakeDue => Take(q)
    case MoveClock => Tick(q)
  }

  ghost predicate Run(qs: seq<Queue>, evs: seq<Event>)
  {
    && |qs| == |evs| + 1 && qs[0] == Queue(0, [], [], [])
    && forall i, j :: 0 <= i < |evs| && j == i + 1 ==> Allowed(qs[i], evs[i]) && qs[j] == After(qs[i], evs[i])
  }

  /** In every state of every run: whatever was due before now has fired exactly
      once, at its deadline, and the log is ordered by deadline and insertion. */
  lemma {:induction false} RunFires(qs: seq<Queue>, evs: seq<Event>, k: nat)
    requires Run(qs, evs) && k < |qs|
    ensures QueueInv(qs[k])
    ensures forall id :: 0 <= id < |qs[k].added| && qs[k].added[id] < qs[k].now ==>
      Firing(qs[k].added[id], id) in qs[k].fired && multiset(qs[k].fired)[Firing(qs[k].added[id], id)] == 1
  {
    var q := qs[k];
    if k > 0 {
      RunFires(qs, evs, k - 1);
      var q0, ev := qs[k - 1], evs[k - 1];
      assert Allowed(q0, ev) && q == After(q0, ev);
      match ev
      case AddTimer(d) => AddInv(q0, d);
      case TakeDue => TakeInv(q0);
      case MoveClock => NothingDue(q0); TickInv(q0);
    }
    forall id | 0 <= id < |q.added| && q.added[id] < q.now
      ensures Firing(q.added[id], id) in q.fired && multiset(q.fired)[Firing(q.added[id], id)] == 1
    {
      assert Entry(q.added[id], id) !in q.pending;
      OnceIn(q.fired, Firing(q.added[id], id));
    }
  }

  /** How often the clock has been moved. */
  function Moves(evs: seq<Event>): nat
    decreases |evs|
  {
    if evs == [] then 0 else Moves(evs[..|evs| - 1]) + if evs[|evs| - 1] == MoveClock then 1 else 0
  }

  /** The clock counts its moves and nothing else. */
  lemma {:induction false} ClockCounts(qs: seq<Queue>, evs: seq<Event>, k: nat)
    requires Run(qs, evs) && k < |qs|
    ensures qs[k].now == Moves(evs[..k])
  {
    if k > 0 {
      ClockCounts(qs, evs, k - 1);
      assert evs[..k][..k - 1] == evs[..k - 1] && qs[k] == After(qs[k - 1], evs[k - 1]);
    }
  }

  /** A timer keeps its number and its deadline. */
  lemma {:induction false} AddedStays(qs: seq<Queue>, evs: seq<Event>, j: nat, k: nat)
    requires Run(qs, evs) && j <= k < |qs|
    ensures qs[j].added <= qs[k].added && qs[j].now <= qs[k].now
    decreases k - j
  {
    if j < k {
      AddedStays(qs, evs, j, k - 1);
      assert qs[k] == After(qs[k - 1], evs[k - 1]);
    }
  }

  /** The timer that step j of a run adds with delay d: it is fired at no other
      clock than d ticks after that step, at most once, and it has been fired
      as soon as the clock has passed that tick. */
  lemma {:induction false} RunDelay(qs: seq<Queue>, evs: seq<Event>, j: nat, k: nat, d: nat)
    requires Run(qs, evs) && j < k < |qs| && evs[j] == AddTimer(d)
    ensures var id, t := |qs[j].added|, qs[j].now + d;
      && (forall f :: f in qs[k].fired && f.id == id ==> f.clock == t)
      && multiset(qs[k].fired)[Firing(t, id)] <= 1
      && (qs[k].now > t ==> multiset(qs[k].fired)[Firing(t, id)] == 1)
      && (qs[k].now < t ==> Firing(t, id) !in qs[k].fired)
  {
    var id, t := |qs[j].added|, qs[j].now + d;
    assert qs[j + 1] == After(qs[j], evs[j]) && qs[j + 1].added[id] == t;
    AddedStays(qs, evs, j + 1, k);
    RunFires(qs, evs, k);
    assert qs[k].added[id] == t;
    if Firing(t, id) in qs[k].fired { OnceIn(qs[k].fired, Firing(t, id)); }
  }

  lemma {:induction false} NothingDue(q: Queue)
    requires QueueInv(q) && Due(q.pending, q.now) == []
    ensures forall e :: e in q.pending ==> e.deadline > q.now
  {
    DueRest(q.pending, q.now);
    forall e | e in q.pending ensures e.deadline > q.now {
      assert Firing(q.now, e.id) in Due(q.pending, q.now) <==> Entry(q.now, e.id) in q.pending;
    }
  }

  lemma {:induction false} OnceIn(log: seq<Firing>, f: Firing)
    requires f in log && forall i, j :: 0 <= i < j < |log| ==> Before(log[i], log[j])
    ensures multiset(log)[f] == 1
    decreases |log|
  {
    var last := log[|log| - 1];
    assert log == log[..|log| - 1] + [last];
    if f in log[..|log| - 1] { OnceIn(log[..|log| - 1], f); }
  }

  // ------------------------------------------------------------------- wheels

  const W: nat := 0x1_0000_0000
  const HALF: nat := 0x8000_0000
  const TIME_NEAR: nat := 256
  const TIME_LEVEL: nat := 64

  datatype Node = Node(expire: nat, id: nat)

  datatype Slot = NearSlot(k: nat) | FarSlot(level: nat, k: nat)

  predicate ValidSlot(s: Slot)
  {
    match s
    case NearSlot(k) => k < TIME_NEAR
    case FarSlot(level, k) => level < 4 && k < TIME_LEVEL
  }

  /** Number of clock ticks one place of a wheel stands for. */
  function Unit(level: nat): nat
    requires level <= 3
  {
    if level == 0 then 0x100 else if level == 1 then 0x4000 else if level == 2 then 0x10_0000 else 0x400_0000
  }

  /** Where `add_node` links a node; two numbers agree above a mask when they
      agree after division. */
  function Place(e: nat, now: nat): (s: Slot)
    requires e < W && now < W
    ensures ValidSlot(s)
  {
    if e / TIME_NEAR == now / TIME_NEAR then NearSlot(e % TIME_NEAR)
    else if e / Unit(1) == now / Unit(1) then FarSlot(0, e / Unit(0) % TIME_LEVEL)
    else if e / Unit(2) == now / Unit(2) then FarSlot(1, e / Unit(1) % TIME_LEVEL)
    else if e / Unit(3) == now / Unit(3) then FarSlot(2, e / Unit(2) % TIME_LEVEL)
    else FarSlot(3, e / Unit(3) % TIME_LEVEL)
  }

  /** The list `timer_shift` moves when the clock becomes `ct`. */
  function Moved(ct: nat): Opt<Slot>
  {
    if ct == 0 then Some(FarSlot(3, 0)) else Scan(ct, 0)
  }

  function Scan(ct: nat, i: nat): Opt<Slot>
    decreases 4 - i
  {
    if i > 3 || ct % Unit(i) != 0 then None
    else if ct / Unit(i) % TIME_LEVEL != 0 then Some(FarSlot(i, ct / Unit(i) % TIME_LEVEL))
    else Scan(ct, i + 1)
  }

  /** The clock one tick later. */
  function NextTick(now: nat): (r: nat)
    requires now < W
    ensures r < W
  {
    if now == W - 1 then 0 else now + 1
  }

  /** Ticks from `now` to `e`, across the wrap-around. */
  function Ahead(e: nat, now: nat): nat
    requires e < W && now < W
  {
    if e >= now then e - now else W + e - now
  }

  /** The near list of the clock holds exactly the due nodes. */
  lemma DueSlot(e: nat, now: nat)
    requires e < W && now < W
    ensures Place(e, now) == NearSlot(now % TIME_NEAR) <==> e == now
  {
  }

  /** Numbers that agree on a wheel agree on all slower ones. */
  lemma AgreeUp(x: nat, y: nat, level: nat)
    requires level < 3 && x / Unit(level) == y / Unit(level)
    ensures x / Unit(level + 1) == y / Unit(level + 1)
  {
    if level == 0 {
      assert x / 0x4000 == x / 0x100 / 64 && y / 0x4000 == y / 0x100 / 64;
    } else if level == 1 {
      assert x / 0x10_0000 == x / 0x4000 / 64 && y / 0x10_0000 == y / 0x4000 / 64;
    } else {
      assert x / 0x400_0000 == x / 0x10_0000 / 64 && y / 0x400_0000 == y / 0x10_0000 / 64;
    }
  }

  /** One tick carries into a wheel only from its last tick. */
  lemma Carry(now: nat, level: nat)
    requires level <= 3
    ensures (now + 1) % Unit(level) != 0 ==> (now + 1) / Unit(level) == now / Unit(level)
    ensures (now + 1) % Unit(level) == 0 ==> now % Unit(level) == Unit(level) - 1
    ensures level < 3 && (now + 1) % Unit(level) != 0 ==> (now + 1) % Unit(level + 1) != 0
  {
  }

  /** At the last tick of a wheel's place nothing pending shares the place. */
  lemma LastTick(e: nat, now: nat, level: nat)
    requires e < W && now < W && 0 < Ahead(e, now) < HALF && level <= 3 && now % Unit(level) == Unit(level) - 1
    ensures e / Unit(level) != now / Unit(level)
  {
  }

  /** A number that is a multiple of all wheels' units up to `level`. */
  lemma ScanIs(ct: nat, level: nat)
    requires level <= 3 && ct % Unit(level) == 0 && ct / Unit(level) % TIME_LEVEL != 0
    ensures Scan(ct, 0) == Some(FarSlot(level, ct / Unit(level) % TIME_LEVEL))
  {
    ScanFrom(ct, level, level);
  }

  lemma ScanFrom(ct: nat, level: nat, i: nat)
    requires i <= level <= 3 && ct % Unit(level) == 0 && ct / Unit(level) % TIME_LEVEL != 0
    requires ct % Unit(i) == 0 && Scan(ct, i) == Some(FarSlot(level, ct / Unit(level) % TIME_LEVEL))
    ensures Scan(ct, 0) == Some(FarSlot(level, ct / Unit(level) % TIME_LEVEL))
    decreases i
  {
    if i > 0 {
      ZeroBelow(ct, i - 1);
      ScanFrom(ct, level, i - 1);
    }
  }

  /** A multiple of a wheel's unit has nothing on the wheel below. */
  lemma ZeroBelow(ct: nat, level: nat)
    requires level < 3 && ct % Unit(level + 1) == 0
    ensures ct % Unit(level) == 0 && ct / Unit(level) % TIME_LEVEL == 0
  {
  }

  /** Numbers that differ on a wheel differ on all faster ones. */
  lemma DifferDown(x: nat, y: nat, level: nat)
    requires level <= 3 && x / Unit(level) != y / Unit(level)
    ensures forall j :: 0 <= j <= level ==> x / Unit(j) != y / Unit(j)
  {
    if level > 0 {
      if x / Unit(level - 1) == y / Unit(level - 1) { AgreeUp(x, y, level - 1); }
      DifferDown(x, y, level - 1);
    }
  }

  /** The wheel a node is on: the first on which it agrees with the clock. */
  function Wheel(e: nat, now: nat): nat
  {
    if e / Unit(0) == now / Unit(0) then 0
    else if e / Unit(1) == now / Unit(1) then 1
    else if e / Unit(2) == now / Unit(2) then 2
    else if e / Unit(3) == now / Unit(3) then 3
    else 4
  }

  lemma PlaceOnWheel(e: nat, now: nat)
    requires e < W && now < W
    ensures Place(e, now) ==
      var w := Wheel(e, now); if w == 0 then NearSlot(e % TIME_NEAR) else FarSlot(w - 1, e / Unit(w - 1) % TIME_LEVEL)
  {
  }

  lemma WheelIs(e: nat, now: nat, w: nat)
    requires w <= 4 && (w < 4 ==> e / Unit(w) == now / Unit(w)) && (w > 0 ==> e / Unit(w - 1) != now / Unit(w - 1))
    ensures Wheel(e, now) == w
  {
    if w > 0 {
      DifferDown(e, now, w - 1);
      assert forall j :: 0 <= j <= w - 1 ==> e / Unit(j) != now / Unit(j);
    }
  }

  lemma WheelAt(e: nat, now: nat)
    ensures var w := Wheel(e, now);
      w <= 4 && (w < 4 ==> e / Unit(w) == now / Unit(w)) && (w > 0 ==> e / Unit(w - 1) != now / Unit(w - 1))
  {
  }

  /** The clock agrees before and after the tick on the wheels above `level`. */
  lemma SameAbove(now: nat, level: nat, j: nat)
    requires level <= j <= 3 && (now + 1) % Unit(level) != 0
    ensures (now + 1) / Unit(j) == now / Unit(j)
    decreases j - level
  {
    Carry(now, level);
    if level < j { SameAbove(now, level + 1, j); }
  }

  /** The tick carries up to wheel `level` and no further. */
  lemma StaysAt(e: nat, now: nat, level: nat)
    requires e < W && now + 1 < W && 0 < Ahead(e, now) < HALF && level <= 3
    requires (now + 1) % Unit(level) == 0 && (now + 1) / Unit(level) % TIME_LEVEL != 0
    requires Place(e, now) != FarSlot(level, (now + 1) / Unit(level) % TIME_LEVEL)
    ensures Place(e, now + 1) == Place(e, now)
  {
    var ct := now + 1;
    var w := Wheel(e, now);
    WheelAt(e, now);
    PlaceOnWheel(e, now);
    PlaceOnWheel(e, ct);
    Carry(now, level);
    LastTick(e, now, level);
    DifferDown(e, now, level);
    assert w > level;
    if level < 3 { NextUnit(ct, level); }
    if w < 4 { SameAbove(now, level + 1, w); }
    if w - 1 > level { SameAbove(now, level + 1, w - 1); }
    WheelIs(e, ct, w);
  }

  lemma NextUnit(ct: nat, level: nat)
    requires level < 3 && ct % Unit(level) == 0 && ct / Unit(level) % TIME_LEVEL != 0
    ensures ct % Unit(level + 1) != 0
  {
  }

  /** No carry at all. */
  lemma StaysLow(e: nat, now: nat)
    requires e < W && now + 1 < W && (now + 1) % Unit(0) != 0
    ensures Place(e, now + 1) == Place(e, now)
  {
    SameAbove(now, 0, 0);
    SameAbove(now, 0, 1);
    SameAbove(now, 0, 2);
    SameAbove(now, 0, 3);
  }

  /** The clock wraps around. */
  lemma StaysAtWrap(e: nat, now: nat)
    requires e < W && now == W - 1 && 0 < Ahead(e, now) < HALF && Place(e, now) != FarSlot(3, 0)
    ensures Place(e, 0) == Place(e, now)
  {
    LastTick(e, now, 3);
    WheelIs(e, now, 4);
    PlaceOnWheel(e, now);
    PlaceOnWheel(e, 0);
    WheelIs(e, 0, 4);
  }

  /** Moving the clock leaves a pending node where it is, unless it is in the
      list that is moved. */
  lemma PlaceStays(e: nat, now: nat)
    requires e < W && now < W && 0 < Ahead(e, now) < HALF
    ensures var ct := NextTick(now); Some(Place(e, now)) != Moved(ct) ==> Place(e, ct) == Place(e, now)
  {
    if now == W - 1 {
      if Place(e, now) != FarSlot(3, 0) { StaysAtWrap(e, now); }
    } else {
      StaysOneTick(e, now);
    }
  }

  lemma StaysOneTick(e: nat, now: nat)
    requires e < W && now + 1 < W && 0 < Ahead(e, now) < HALF
    ensures Some(Place(e, now)) != Moved(now + 1) ==> Place(e, now + 1) == Place(e, now)
  {
    var ct := now + 1;
    if ct % Unit(0) != 0 {
      StaysLow(e, now);
    } else {
      var level := CarryLevel(ct);
      ScanIs(ct, level);
      if Place(e, now) != FarSlot(level, ct / Unit(level) % TIME_LEVEL) { StaysAt(e, now, level); }
    }
  }

  /** The wheel the carry stops at. */
  lemma CarryLevel(ct: nat) returns (level: nat)
    requires 0 < ct < W && ct % Unit(0) == 0
    ensures level <= 3 && ct % Unit(level) == 0 && ct / Unit(level) % TIME_LEVEL != 0
  {
    level := 0;
    while level < 3 && ct / Unit(level) % TIME_LEVEL == 0
      invariant level <= 3 && ct % Unit(level) == 0
    {
      NextZero(ct, level);
      level := level + 1;
    }
    if level == 3 { assert ct / 0x400_0000 < 64 && ct == ct / 0x400_0000 * 0x400_0000; }
  }

  lemma NextZero(ct: nat, level: nat)
    requires level < 3 && ct % Unit(level) == 0 && ct / Unit(level) % TIME_LEVEL == 0
    ensures ct % Unit(level + 1) == 0
  {
  }

  // ---------------------------------------------------- lists and pending nodes

  /** The nodes of a list with expire time `e`, in order. */
  function Filter(l: seq<Node>, e: nat): (r: seq<Node>)
    ensures forall n :: n in r ==> n in l && n.expire == e
  {
    if l == [] then [] else (if l[0].expire == e then [l[0]] else []) + Filter(l[1..], e)
  }

  /** The pending timers with expire time `e`, as nodes. */
  function Select(p: seq<Entry>, e: nat): seq<Node>
  {
    if p == [] then [] else (if p[0].deadline % W == e then [Node(e, p[0].id)] else []) + Select(p[1..], e)
  }

  lemma {:induction false} FilterApp(a: seq<Node>, b: seq<Node>, e: nat)
    ensures Filter(a + b, e) == Filter(a, e) + Filter(b, e)
    decreases |a|
  {
    if a == [] { assert a + b == b; }
    else {
      assert (a + b)[1..] == a[1..] + b;
      FilterApp(a[1..], b, e);
    }
  }

  lemma {:induction false} FilterOne(n: Node, e: nat)
    ensures Filter([n], e) == if n.expire == e then [n] else []
  {
    assert Filter([n][1..], e) == [];
  }

  lemma {:induction false} SelectApp(a: seq<Entry>, b: Entry, e: nat)
    ensures Select(a + [b], e) == Select(a, e) + if b.deadline % W == e then [Node(e, b.id)] else []
    decreases |a|
  {
    if a == [] {
      assert a + [b] == [b] && Select([b][1..], e) == [];
    } else {
      var ab := a + [b];
      assert ab[1..] == a[1..] + [b] && ab[0] == a[0];
      SelectApp(a[1..], b, e);
      var first := if a[0].deadline % W == e then [Node(e, a[0].id)] else [];
      var last := if b.deadline % W == e then [Node(e, b.id)] else [];
      assert first + (Select(a[1..], e) + last) == first + Select(a[1..], e) + last;
    }
  }

  lemma {:induction false} FilterAll(l: seq<Node>, e: nat)
    requires forall n :: n in l ==> n.expire == e
    ensures Filter(l, e) == l
    decreases |l|
  {
    if l != [] { FilterAll(l[1..], e); }
  }

  lemma {:induction false} FilterIn(l: seq<Node>, n: Node)
    requires n in l
    ensures n in Filter(l, n.expire)
    decreases |l|
  {
    if l[0] != n { FilterIn(l[1..], n); }
  }

  /** Something selected has a pending timer behind it. */
  lemma {:induction false} SelectIn(p: seq<Entry>, e: nat)
    requires Select(p, e) != []
    ensures exists x :: x in p && x.deadline % W == e
    decreases |p|
  {
    if p[0].deadline % W == e { assert p[0] in p; }
    else {
      SelectIn(p[1..], e);
      var x :| x in p[1..] && x.deadline % W == e;
      assert x in p;
    }
  }

  /** Pending deadlines lie less than half the range of the clock ahead. */
  ghost predicate Window(q: Queue)
  {
    forall x :: x in q.pending ==> q.now <= x.deadline < q.now + HALF
  }

  lemma WindowAhead(now: nat, deadline: nat)
    requires now <= deadline < now + HALF
    ensures Ahead(deadline % W, now % W) == deadline - now
  {
  }

  lemma {:induction false} TakeSelect(p: seq<Entry>, now: nat, e: nat)
    requires forall x :: x in p ==> now <= x.deadline < now + HALF
    ensures Select(Rest(p, now), e) == if e == now % W then [] else Select(p, e)
    decreases |p|
  {
    if p != [] {
      TakeSelect(p[1..], now, e);
      WindowAhead(now, p[0].deadline);
      var r := Rest(p[1..], now);
      if p[0].deadline != now {
        assert ([p[0]] + r)[1..] == r;
        assert p[0].deadline % W != now % W;
      } else {
        assert [] + r == r;
      }
    }
  }

  /** The due nodes are the due timers. */
  lemma {:induction false} DueSelect(p: seq<Entry>, now: nat)
    requires forall x :: x in p ==> now <= x.deadline < now + HALF
    ensures var due, sel := Due(p, now), Select(p, now % W);
      |due| == |sel| && forall k :: 0 <= k < |due| ==> due[k].id == sel[k].id
    decreases |p|
  {
    if p != [] {
      DueSelect(p[1..], now);
      WindowAhead(now, p[0].deadline);
    }
  }
}
