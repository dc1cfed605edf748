/** Which packet goes first: a plan of the whole wire is kept beside the
    socket, from the send requests alone, and the socket follows it.  A packet
    of high priority is planned before all packets of low priority that wait. */
module TcpPriority {
  import opened TcpSend
  import opened TcpOrder

  /** How a packet was accepted: with high priority; with low priority when
      nothing was queued on a connected socket; with low priority otherwise. */
  datatype Tag = Urgent | Lucky | Busy

  datatype Mark = Mark(p: Packet, tag: Tag)

  datatype Planned = Planned(s: Sock, plan: seq<Mark>)

  function Data(plan: seq<Mark>): (ps: seq<Packet>)
    ensures |ps| == |plan|
  {
    seq(|plan|, i requires 0 <= i < |plan| => plan[i].p)
  }

  /** Number of packets that are on the wire, be it in part. */
  function Kept(s: Sock): nat
  {
    |s.done| + if |s.wire| > |Flat(s.done)| then 1 else 0
  }

  /** The part of a plan that an urgent packet cannot pass: the low packets at
      its end are passed, down to the first `kept`. */
  function Passed(plan: seq<Mark>, kept: nat): (n: nat)
    ensures n <= |plan|
    decreases |plan|
  {
    if |plan| > kept && plan[|plan| - 1].tag == Busy then Passed(plan[..|plan| - 1], kept) else |plan|
  }

  function Inserted(plan: seq<Mark>, n: nat, m: Mark): seq<Mark>
    requires n <= |plan|
  {
    plan[..n] + [m] + plan[n..]
  }

  /** Nothing stands between a packet and the wire. */
  predicate Idle(s: Sock)
  {
    s.high == [] && s.low == [] && s.dw.None? && s.direct.None?
  }

  function Replan(t: Planned, st: Step): seq<Mark>
  {
    match st
    case Queue(p, low) =>
      if t.s.closed || t.s.halfclose then t.plan
      else if !low then Inserted(t.plan, Passed(t.plan, Kept(t.s)), Mark(p, Urgent))
      else if t.s.high == [] && t.s.low == [] && t.s.connected then t.plan + [Mark(p, Lucky)]
      else t.plan + [Mark(p, Busy)]
    case Check(p) =>
      if Idle(t.s) && t.s.connected && !t.s.closed && !t.s.halfclose then t.plan + [Mark(p, Urgent)] else t.plan
    case _ => t.plan
  }

  function Advance(t: Planned, st: Step): Planned
  {
    Planned(Apply(t.s, st), Replan(t, st))
  }

  function AdvanceAll(t: Planned, steps: seq<Step>): Planned
    decreases |steps|
  {
    if steps == [] then t else AdvanceAll(Advance(t, steps[0]), steps[1..])
  }

  // ---------------------------------------------------------------- invariant

  /** Everything that was accepted and not dropped, in the order of the wire. */
  function Line(s: Sock): seq<Packet>
  {
    Front(s) + TcpSend.Packets(s.low)
  }

  /** From `kept` on, the low packets that wait are the end of the plan. */
  ghost predicate Parted(plan: seq<Mark>, kept: nat, front: nat)
  {
    && kept <= front <= |plan|
    && (forall i :: kept <= i < front ==> plan[i].tag != Busy)
    && (forall i :: front <= i < |plan| ==> plan[i].tag == Busy)
  }

  /** The wire carries the beginning of the plan. */
  ghost predicate Carried(t: Planned)
  {
    t.s.done <= Data(t.plan) && t.s.wire <= Flat(Data(t.plan))
  }

  ghost predicate Follows(t: Planned)
  {
    && Carried(t)
    && (!t.s.closed ==> Data(t.plan) == Line(t.s) && Parted(t.plan, Kept(t.s), |Front(t.s)|))
  }

  // --------------------------------------------------------------- small facts

  lemma {:induction false} FlatCat(a: seq<Packet>, b: seq<Packet>)
    ensures Flat(a + b) == Flat(a) + Flat(b)
    decreases |a|
  {
    if a == [] { assert a + b == b; } else {
      assert (a + b)[1..] == a[1..] + b;
      FlatCat(a[1..], b);
    }
  }

  /** Whole packets and a part of the next are a prefix. */
  lemma {:induction false} PartCarried(done: seq<Packet>, p: Packet, k: nat, rest: seq<Packet>)
    requires k <= |p|
    ensures Flat(done) + p[..k] <= Flat(done + ([p] + rest)) && Flat(done) <= Flat(done + rest)
    ensures done <= done + ([p] + rest) && done <= done + rest
  {
    FlatCat(done, [p] + rest);
    FlatCat(done, rest);
    assert ([p] + rest)[1..] == rest;
    assert Flat([p] + rest) == p + Flat(rest);
    assert p[..k] + (p[k..] + Flat(rest)) == p + Flat(rest);
    assert Flat(done) + (p + Flat(rest)) == Flat(done) + p[..k] + (p[k..] + Flat(rest));
  }

  /** A list of which the first buffer may have been begun. */
  lemma {:induction false} ListCarried(done: seq<Packet>, list: seq<Buf>, rest: seq<Packet>)
    ensures Flat(done) + Begun(list) <= Flat(done + (TcpSend.Packets(list) + rest))
    ensures done <= done + (TcpSend.Packets(list) + rest)
  {
    var none: Packet := [];
    if list == [] {
      assert TcpSend.Packets(list) + rest == rest;
      PartCarried(done, none, 0, rest);
    } else {
      PacketsCons(list);
      var more := TcpSend.Packets(list[1..]) + rest;
      assert TcpSend.Packets(list) + rest == [list[0].data] + more;
      PartCarried(done, list[0].data, list[0].off, more);
    }
  }

  lemma {:induction false} FrontIs(s: Sock)
    requires s.direct.Some? ==> s.dw.None?
    ensures Front(s) == s.done + TcpSend.Packets((if s.direct.Some? then [Buf(s.direct.v, 0)] else []) +
                                                 (if s.dw.Some? then [s.dw.v] else []) + s.high)
  {
    var first := (if s.direct.Some? then [Buf(s.direct.v, 0)] else []) + if s.dw.Some? then [s.dw.v] else [];
    PacketsApp(first, s.high);
    if s.direct.Some? {
      assert TcpSend.Packets(first) == [s.direct.v];
      assert s.done + [s.direct.v] + [] + TcpSend.Packets(s.high) == s.done + ([s.direct.v] + TcpSend.Packets(s.high));
    } else if s.dw.Some? {
      assert TcpSend.Packets(first) == [s.dw.v.data];
      assert s.done + [] + [s.dw.v.data] + TcpSend.Packets(s.high) ==
        s.done + ([s.dw.v.data] + TcpSend.Packets(s.high));
    } else {
      assert TcpSend.Packets(first) == [];
      assert s.done + [] + [] + TcpSend.Packets(s.high) == s.done + ([] + TcpSend.Packets(s.high));
    }
  }

  /** An open socket carries the beginning of its line; what is begun is in the
      part before the low list. */
  lemma {:induction false} LineCarried(s: Sock)
    requires Open(s)
    ensures s.done <= Line(s) && s.wire <= Flat(Line(s)) && Kept(s) <= |Front(s)|
    ensures |s.wire| == |Flat(s.done)| + |Part(s)|
  {
    FrontIs(s);
    var list := (if s.direct.Some? then [Buf(s.direct.v, 0)] else []) + (if s.dw.Some? then [s.dw.v] else []) + s.high;
    assert Part(s) == Begun(list);
    ListCarried(s.done, list, TcpSend.Packets(s.low));
    assert Line(s) == s.done + (TcpSend.Packets(list) + TcpSend.Packets(s.low));
  }

  lemma {:induction false} PassedIs(plan: seq<Mark>, kept: nat, front: nat)
    requires Parted(plan, kept, front)
    ensures Passed(plan, kept) == front
    decreases |plan|
  {
    if |plan| > front { PassedIs(plan[..|plan| - 1], kept, front); }
  }

  /** What is to be shown of an open socket. */
  lemma {:induction false} OpenFollows(t: Planned)
    requires Inv(t.s) && !t.s.closed && Data(t.plan) == Line(t.s)
    requires forall i :: Kept(t.s) <= i < |Front(t.s)| ==> t.plan[i].tag != Busy
    requires forall i :: |Front(t.s)| <= i < |t.plan| ==> t.plan[i].tag == Busy
    ensures Follows(t)
  {
    LineCarried(t.s);
  }

  // --------------------------------------------------------------------- steps

  lemma {:induction false} FrontFollows(t: Planned, s': Sock, p: Packet, tag: Tag)
    requires Inv(t.s) && Follows(t) && Inv(s') && !t.s.closed && !s'.closed && tag != Busy
    requires s'.low == t.s.low && Front(s') == Front(t.s) + [p] && s'.done == t.s.done && s'.wire == t.s.wire
    ensures Follows(Planned(s', Inserted(t.plan, |Front(t.s)|, Mark(p, tag))))
  {
    var n := |Front(t.s)|;
    var plan' := Inserted(t.plan, n, Mark(p, tag));
    forall i | 0 <= i < |plan'| ensures Data(plan')[i] == Line(s')[i] {
      if i < n { assert t.plan[i].p == Data(t.plan)[i]; }
      if i > n { assert t.plan[i - 1].p == Data(t.plan)[i - 1]; }
    }
    OpenFollows(Planned(s', plan'));
  }

  lemma {:induction false} LowFollows(t: Planned, s': Sock, p: Packet)
    requires Inv(t.s) && Follows(t) && Inv(s') && !t.s.closed && !s'.closed
    requires s'.low == t.s.low + [Buf(p, 0)] && Front(s') == Front(t.s) && s'.done == t.s.done && s'.wire == t.s.wire
    ensures Follows(Planned(s', t.plan + [Mark(p, Busy)]))
  {
    PacketsApp(t.s.low, [Buf(p, 0)]);
    var plan' := t.plan + [Mark(p, Busy)];
    forall i | 0 <= i < |plan'| ensures Data(plan')[i] == Line(s')[i] {
      if i < |t.plan| { assert t.plan[i].p == Data(t.plan)[i]; }
    }
    OpenFollows(Planned(s', plan'));
  }

  lemma {:induction false} InsertedLast(plan: seq<Mark>, m: Mark)
    ensures Inserted(plan, |plan|, m) == plan + [m]
  {
  }

  lemma {:induction false} QueueFollows(t: Planned, p: Packet, low: bool)
    requires Inv(t.s) && Follows(t)
    ensures Follows(Advance(t, Queue(p, low)))
  {
    if !t.s.closed && !t.s.halfclose {
      var s' := Append(t.s, p, low);
      AppendInv(t.s, p, low);
      if low && !(t.s.high == [] && t.s.low == [] && t.s.connected) {
        LowFollows(t, s', p);
      } else {
        FrontAppend(t.s, s', p);
        FrontFollows(t, s', p, if low then Lucky else Urgent);
        PassedIs(t.plan, Kept(t.s), |Front(t.s)|);
        if low {
          assert |t.plan| == |Front(t.s)|;
          InsertedLast(t.plan, Mark(p, Lucky));
        }
      }
    }
  }

  lemma {:induction false} CheckFollows(t: Planned, p: Packet)
    requires Inv(t.s) && Follows(t)
    ensures Follows(Advance(t, Check(p)))
  {
    if Idle(t.s) && t.s.connected && !t.s.closed && !t.s.halfclose {
      var s' := DirectCheck(t.s, p);
      CheckInv(t.s, p);
      FrontPlain(t.s);
      assert TcpSend.Packets(s'.high) == [];
      assert Front(s') == t.s.done + [p];
      FrontFollows(t, s', p, Urgent);
      InsertedLast(t.plan, Mark(p, Urgent));
    }
  }

  /** A step that moves on along the line and leaves the low list. */
  lemma {:induction false} SameFollows(t: Planned, s': Sock)
    requires Inv(t.s) && Follows(t) && Inv(s') && !t.s.closed && !s'.closed
    requires Front(s') == Front(t.s) && s'.low == t.s.low && Kept(t.s) <= Kept(s')
    ensures Follows(Planned(s', t.plan))
  {
    OpenFollows(Planned(s', t.plan));
  }

  /** A close leaves the wire as it is. */
  lemma {:induction false} CloseFollows(t: Planned)
    requires Carried(t)
    ensures Follows(Planned(ForceClose(t.s), t.plan)) || t.s.closed
  {
  }

  lemma {:induction false} WriteFollows(t: Planned, io: Io)
    requires Inv(t.s) && Follows(t)
    ensures Follows(Advance(t, Write(io)))
  {
    if t.s.direct.Some? {
      var s' := DirectWrite(t.s, io);
      DirectWriteInv(t.s, io);
      FrontWritten(t.s, io);
      LineCarried(t.s);
      SameFollows(t, s');
    }
  }

  lemma {:induction false} TakeDirectFront(s: Sock)
    requires s.direct.None?
    ensures var s' := TakeDirect(s); Front(s') == Front(s) && Kept(s') == Kept(s) && s'.low == s.low
  {
    if s.dw.Some? {
      var s' := TakeDirect(s);
      PacketsCons(s'.high);
      assert s'.high[1..] == s.high;
    }
  }

  lemma {:induction false} TakeDirectFollows(t: Planned)
    requires Inv(t.s) && Follows(t) && !t.s.closed && t.s.direct.None?
    ensures Inv(TakeDirect(t.s)) && Follows(Planned(TakeDirect(t.s), t.plan))
  {
    TakeDirectInv(t.s);
    TakeDirectFront(t.s);
    SameFollows(t, TakeDirect(t.s));
  }

  /** Packets that are done stay done, and so does a begun one. */
  lemma {:induction false} KeptGrows(s: Sock, s': Sock)
    requires s.done <= s'.done && s.wire <= s'.wire
    ensures Kept(s) <= Kept(s')
  {
    if |s.done| == |s'.done| { assert s.done == s'.done; }
  }

  lemma {:induction false} HighFollows(t: Planned, io: seq<Io>)
    requires Inv(t.s) && Follows(t) && !t.s.closed && t.s.direct.None? && t.s.dw.None?
    ensures var s' := SendHigh(t.s, io).0; Inv(s') && Follows(Planned(s', t.plan))
  {
    var s' := SendHigh(t.s, io).0;
    SendHighInv(t.s, io);
    SendListKeeps(t.s.high, t.s.wb_size, t.s.wire, t.s.done, io);
    SendListDone(t.s.high, t.s.wb_size, t.s.wire, t.s.done, io);
    FrontPlain(t.s);
    FrontPlain(s');
    KeptGrows(t.s, s');
    SameFollows(t, s');
  }

  /** The low list is sent: the line stays, and the packets that are done move
      to its front. */
  lemma {:induction false} LowLine(t: Planned, io: seq<Io>)
    requires Inv(t.s) && Follows(t) && !t.s.closed && t.s.direct.None? && t.s.dw.None? && t.s.high == []
    ensures var s' := SendLow(t.s, io).0;
      && Data(t.plan) == Line(s') == s'.done + TcpSend.Packets(s'.low) && Carried(Planned(s', t.plan))
      && forall i :: |s'.done| <= i < |t.plan| ==> t.plan[i].tag == Busy
  {
    var s' := SendLow(t.s, io).0;
    SendListKeeps(t.s.low, t.s.wb_size, t.s.wire, t.s.done, io);
    SendListDone(t.s.low, t.s.wb_size, t.s.wire, t.s.done, io);
    FrontPlain(t.s);
    FrontPlain(s');
    ListCarried(s'.done, s'.low, []);
    assert TcpSend.Packets(s'.low) + [] == TcpSend.Packets(s'.low);
  }

  lemma {:induction false} RaiseFollows(t: Planned)
    requires !t.s.closed && t.s.direct.None? && t.s.dw.None? && t.s.high == [] && Uncomplete(t.s.low)
    requires Inv(Raise(t.s))
    requires Data(t.plan) == t.s.done + TcpSend.Packets(t.s.low)
    requires forall i :: |t.s.done| <= i < |t.plan| ==> t.plan[i].tag == Busy
    ensures Follows(Planned(Raise(t.s), t.plan))
  {
    var s' := Raise(t.s);
    PacketsCons(t.s.low);
    FrontPlain(s');
    LineCarried(s');
    assert TcpSend.Packets(s'.high) == [t.s.low[0].data];
    assert Kept(s') == |s'.done| + 1 == |Front(s')|;
    assert Line(s') == t.s.done + TcpSend.Packets(t.s.low);
    OpenFollows(Planned(s', t.plan));
  }

  lemma {:induction false} RestFollows(t: Planned, io: seq<Io>)
    requires Inv(t.s) && Follows(t) && !t.s.closed && t.s.direct.None? && t.s.dw.None? && t.s.high == []
    ensures Follows(Planned(SendRest(t.s, io).s, t.plan))
  {
    LowLine(t, io);
    LowInv(t.s, io);
    SendLowKeeps(t.s, io);
    var (s2, closed2) := SendLow(t.s, io);
    var t2 := Planned(s2, t.plan);
    CloseFollows(t2);
    if closed2 {
      assert SendRest(t.s, io).s == ForceClose(s2);
    } else if Uncomplete(s2.low) {
      RaiseInv(s2);
      RaiseFollows(t2);
      assert SendRest(t.s, io).s == Raise(s2);
    } else {
      RestInv(s2);
      FrontPlain(s2);
      OpenFollows(t2);
      assert SendRest(t.s, io).s in {s2, ForceClose(s2)};
    }
  }

  lemma {:induction false} SendFollows(t: Planned, io: seq<Io>)
    requires Inv(t.s) && Follows(t) && !t.s.closed && t.s.direct.None? && t.s.dw.None?
    ensures Follows(Planned(SendBuffer(t.s, io).s, t.plan))
  {
    HighFollows(t, io);
    var (s1, closed1, io1) := SendHigh(t.s, io);
    var t1 := Planned(s1, t.plan);
    if closed1 {
      CloseFollows(t1);
      assert SendBuffer(t.s, io).s == ForceClose(s1);
    } else if s1.high != [] {
      assert SendBuffer(t.s, io).s == s1;
    } else {
      RestFollows(t1, io1);
      assert SendBuffer(t.s, io) == SendRest(s1, io1);
    }
  }

  /** The socket follows its plan through every step. */
  lemma {:induction false} StepFollows(t: Planned, st: Step)
    requires Inv(t.s) && Follows(t)
    ensures Inv(Advance(t, st).s) && Follows(Advance(t, st))
  {
    StepInv(t.s, st);
    match st {
      case Queue(p, low) => QueueFollows(t, p, low);
      case Check(p) => CheckFollows(t, p);
      case Write(io) => WriteFollows(t, io);
      case Send(ios) => FlushFollows(t, ios);
      case Close => CloseFollows(t);
      case Connected => FlagsFollow(t, true, t.s.halfclose);
      case HalfClose => FlagsFollow(t, t.s.connected, true);
    }
  }

  lemma {:induction false} FlushFollows(t: Planned, io: seq<Io>)
    requires Inv(t.s) && Follows(t)
    ensures Follows(Planned(Apply(t.s, Send(io)), t.plan))
  {
    if !t.s.closed && t.s.direct.None? && t.s.connected {
      TakeDirectFollows(t);
      SendFollows(Planned(TakeDirect(t.s), t.plan), io);
    }
  }

  lemma {:induction false} FlagsFollow(t: Planned, connected: bool, halfclose: bool)
    requires Follows(t)
    ensures Follows(Planned(t.s.(connected := connected, halfclose := halfclose), t.plan))
  {
    assert Front(t.s.(connected := connected, halfclose := halfclose)) == Front(t.s);
  }

  // ---------------------------------------------------------------------- runs

  /** A low packet that waits has no urgent packet behind it. */
  ghost predicate LowWaits(t: Planned)
  {
    forall i, j :: Kept(t.s) <= i < j < |t.plan| && t.plan[i].tag == Busy ==> t.plan[j].tag == Busy
  }

  lemma {:induction false} PartedWaits(t: Planned)
    requires !t.s.closed && Follows(t)
    ensures LowWaits(t)
  {
  }

  /** A socket and its plan after a run. */
  function Outcome(connected: bool, steps: seq<Step>): Planned
  {
    AdvanceAll(Planned(NewSock(connected), []), steps)
  }

  lemma {:induction false} StartFollows(connected: bool)
    ensures var t := Planned(NewSock(connected), []); Inv(t.s) && Follows(t)
  {
    NewSockInv(connected);
    var t := Planned(NewSock(connected), []);
    assert TcpSend.Packets(t.s.high) == [] && TcpSend.Packets(t.s.low) == [];
    assert Line(t.s) == [] && Data(t.plan) == [];
  }

  lemma {:induction false} AdvanceAllFollows(t: Planned, steps: seq<Step>)
    requires Inv(t.s) && Follows(t)
    ensures var t' := AdvanceAll(t, steps); t'.s == Run(t.s, steps) && Inv(t'.s) && Follows(t')
    decreases |steps|
  {
    if steps != [] {
      StepFollows(t, steps[0]);
      AdvanceAllFollows(Advance(t, steps[0]), steps[1..]);
    }
  }

  lemma {:induction false} OutcomeFollows(connected: bool, steps: seq<Step>)
    ensures var t := Outcome(connected, steps); t.s == Run(NewSock(connected), steps) && Inv(t.s) && Follows(t)
  {
    StartFollows(connected);
    AdvanceAllFollows(Planned(NewSock(connected), []), steps);
  }

  /** In every run the wire carries the beginning of the plan, and while the
      socket is open nothing of the plan is lost and no urgent packet waits
      behind a low one. */
  lemma {:induction false} RunFollows(connected: bool, steps: seq<Step>)
    ensures var t := Outcome(connected, steps);
      && t.s == Run(NewSock(connected), steps)
      && t.s.done <= Data(t.plan) && t.s.wire <= Flat(Data(t.plan))
      && (!t.s.closed ==> Data(t.plan) == Line(t.s) && LowWaits(t))
  {
    OutcomeFollows(connected, steps);
    var t := Outcome(connected, steps);
    if !t.s.closed { PartedWaits(t); }
  }

  /** Only writing puts packets on the wire, and it leaves the plan. */
  lemma {:induction false} OnlyWrites(t: Planned, st: Step)
    ensures Kept(Apply(t.s, st)) == Kept(t.s) || Replan(t, st) == t.plan
  {
    match st {
      case Queue(p, low) => assert Append(t.s, p, low).done == t.s.done;
      case Check(p) => assert DirectCheck(t.s, p).done == t.s.done;
      case _ =>
    }
  }

  lemma {:induction false} LowBeginsStep(t: Planned, st: Step, i: nat)
    requires Inv(t.s) && Follows(t) && Kept(t.s) <= i < Kept(Apply(t.s, st)) && !t.s.closed
    requires i < |Replan(t, st)| && Replan(t, st)[i].tag == Busy
    ensures forall j :: 0 <= j < |Replan(t, st)| && Replan(t, st)[j].tag == Urgent ==> j < |Apply(t.s, st).done|
  {
    OnlyWrites(t, st);
    PartedWaits(t);
  }

  lemma {:induction false} ClosedKept(s: Sock, st: Step)
    requires s.closed && s.direct.None?
    ensures Kept(Apply(s, st)) == Kept(s)
  {
  }

  /** After any run: when a step begins a low packet, every urgent packet that
      was accepted is on the wire completely by then. */
  lemma {:induction false} LowBegins(connected: bool, steps: seq<Step>, st: Step, i: nat)
    requires var t, t' := Outcome(connected, steps), Outcome(connected, steps + [st]);
      Kept(t.s) <= i < Kept(t'.s) && i < |t'.plan| && t'.plan[i].tag == Busy
    ensures var t' := Outcome(connected, steps + [st]);
      forall j :: 0 <= j < |t'.plan| && t'.plan[j].tag == Urgent ==> j < |t'.s.done|
  {
    OutcomeFollows(connected, steps);
    AdvanceSnoc(Planned(NewSock(connected), []), steps, st);
    var t := Outcome(connected, steps);
    if t.s.closed { ClosedKept(t.s, st); }
    LowBeginsStep(t, st, i);
  }

  lemma {:induction false} AdvanceSnoc(t: Planned, steps: seq<Step>, st: Step)
    ensures AdvanceAll(t, steps + [st]) == Advance(AdvanceAll(t, steps), st)
    decreases |steps|
  {
    var all := steps + [st];
    if steps == [] {
      assert all[1..] == [];
    } else {
      assert all[0] == steps[0] && all[1..] == steps[1..] + [st];
      AdvanceSnoc(Advance(t, steps[0]), steps[1..], st);
    }
  }

  // ------------------------------------------------------------------ progress

  /** When `write` takes everything, one pass puts the whole line on the wire. */
  lemma {:induction false} AllSent(s: Sock) returns (io: seq<Io>)
    requires Inv(s) && !s.closed && s.direct.None?
    ensures var r := Flush(s, io); r.Went? && r.s.done == Line(s) && r.s.wire == Flat(Line(s)) && Idle(r.s)
    ensures Flush(s, io).s.closed == s.halfclose
  {
    var s0 := TakeDirect(s);
    TakeDirectInv(s);
    TakeDirectFront(s);
    var io1 := TakeAll(s0.low);
    io := TakeAll(s0.high) + io1;
    TakenAll(s0.high, s0.wb_size, s0.wire, s0.done, io1);
    SendListKeeps(s0.high, s0.wb_size, s0.wire, s0.done, io);
    SendHighInv(s0, io);
    FrontPlain(s0);
    var s1 := SendHigh(s0, io).0;
    assert TcpSend.Packets(s1.high) == [] && s1.done == Front(s);
    LowSent(s1, io1);
    assert Flush(s, io) == SendRest(s1, io1);
  }

  lemma {:induction false} LowSent(s: Sock, io: seq<Io>)
    requires Inv(s) && !s.closed && s.direct.None? && s.dw.None? && s.high == [] && io == TakeAll(s.low)
    ensures var r := SendRest(s, io); var all := s.done + TcpSend.Packets(s.low);
      r.Went? && r.s.done == all && r.s.wire == Flat(all) && Idle(r.s) && r.s.closed == s.halfclose
  {
    assert io + [] == io;
    TakenAll(s.low, s.wb_size, s.wire, s.done, []);
    SendListKeeps(s.low, s.wb_size, s.wire, s.done, io);
    SendLowKeeps(s, io);
    var s2 := SendLow(s, io).0;
    assert s2.low == [] && TcpSend.Packets(s2.low) == [] && s2.done + [] == s2.done;
    assert s2.wire == Flat(s2.done) + [];
  }
}
