/** The order in which the send path of a TCP socket puts packets on the wire:
    packets of one priority never overtake each other, whatever `write` returns
    and however direct writes and the socket thread interleave. */
module TcpOrder {
  import opened TcpSend

  type Packets = seq<Packet>

  /** `z` is an interleaving of `h` and `l`. */
  ghost predicate Merge(h: Packets, l: Packets, z: Packets)
    decreases |z|
  {
    if z == [] then h == [] && l == [] else
    var n := |z| - 1;
    || (h != [] && h[|h| - 1] == z[n] && Merge(h[..|h| - 1], l, z[..n]))
    || (l != [] && l[|l| - 1] == z[n] && Merge(h, l[..|l| - 1], z[..n]))
  }

  lemma {:induction false} MergeHigh(h: Packets, l: Packets, z: Packets, p: Packet)
    requires Merge(h, l, z)
    ensures Merge(h + [p], l, z + [p])
  {
    assert (h + [p])[..|h|] == h && (z + [p])[..|z|] == z;
  }

  lemma {:induction false} MergeLow(h: Packets, l: Packets, z: Packets, p: Packet)
    requires Merge(h, l, z)
    ensures Merge(h, l + [p], z + [p])
  {
    assert (l + [p])[..|l|] == l && (z + [p])[..|z|] == z;
  }

  lemma {:induction false} MergeLows(h: Packets, l: Packets, z: Packets, ps: Packets)
    requires Merge(h, l, z)
    ensures Merge(h, l + ps, z + ps)
    decreases |ps|
  {
    if ps == [] {
      assert l + ps == l && z + ps == z;
    } else {
      var n := |ps| - 1;
      MergeLows(h, l, z, ps[..n]);
      MergeLow(h, l + ps[..n], z + ps[..n], ps[n]);
      assert ps == ps[..n] + [ps[n]];
      assert l + ps == l + ps[..n] + [ps[n]] && z + ps == z + ps[..n] + [ps[n]];
    }
  }

  /** The first packets of an interleaving interleave first packets. */
  ghost predicate Begins(h: Packets, l: Packets, z: Packets)
  {
    exists h1, l1 :: h1 <= h && l1 <= l && Merge(h1, l1, z)
  }

  lemma {:induction false} MergePrefix(h: Packets, l: Packets, z: Packets, n: nat)
    requires Merge(h, l, z) && n <= |z|
    ensures Begins(h, l, z[..n])
    decreases |z|
  {
    if n == |z| {
      assert z[..n] == z;
    } else {
      var m := |z| - 1;
      assert z[..m][..n] == z[..n];
      if h != [] && h[|h| - 1] == z[m] && Merge(h[..|h| - 1], l, z[..m]) {
        MergePrefix(h[..|h| - 1], l, z[..m], n);
      } else {
        MergePrefix(h, l[..|l| - 1], z[..m], n);
      }
    }
  }

  /** Without packets of the other priority there is only one order. */
  lemma {:induction false} MergeAlone(h: Packets, z: Packets)
    requires Merge(h, [], z)
    ensures z == h
    decreases |z|
  {
    if z != [] {
      var n := |z| - 1;
      MergeAlone(h[..|h| - 1], z[..n]);
      assert z == z[..n] + [z[n]] && h == h[..|h| - 1] + [h[|h| - 1]];
    }
  }

  lemma {:induction false} BeginsMore(h: Packets, l: Packets, h': Packets, l': Packets, z: Packets)
    requires Begins(h, l, z) && h <= h' && l <= l'
    ensures Begins(h', l', z)
  {
    var h1, l1 :| h1 <= h && l1 <= l && Merge(h1, l1, z);
    assert h1 <= h' && l1 <= l';
  }

  // ---------------------------------------------------------------------- state

  /** A socket with the packets accepted so far, in order, by priority. */
  datatype Tracked = Tracked(s: Sock, highs: Packets, lows: Packets)

  function Track(t: Tracked, st: Step): Tracked
  {
    var s' := Apply(t.s, st);
    match st
    case Queue(p, low) =>
      if t.s.closed || t.s.halfclose then Tracked(s', t.highs, t.lows)
      else if low then Tracked(s', t.highs, t.lows + [p])
      else Tracked(s', t.highs + [p], t.lows)
    case Check(p) => if s' == t.s then Tracked(s', t.highs, t.lows) else Tracked(s', t.highs + [p], t.lows)
    case _ => Tracked(s', t.highs, t.lows)
  }

  function TrackAll(t: Tracked, steps: seq<Step>): Tracked
    decreases |steps|
  {
    if steps == [] then t else TrackAll(Track(t, steps[0]), steps[1..])
  }

  /** Everything that goes before the low list, in the order of the wire. */
  function Front(s: Sock): Packets
  {
    s.done + (if s.direct.Some? then [s.direct.v] else []) + (if s.dw.Some? then [s.dw.v.data] else []) +
    TcpSend.Packets(s.high)
  }

  ghost predicate Lined(s: Sock, highs: Packets, lows: Packets, l1: Packets)
  {
    lows == l1 + TcpSend.Packets(s.low) && Merge(highs, l1, Front(s))
  }

  ghost predicate Ordered(t: Tracked)
  {
    if t.s.closed then Begins(t.highs, t.lows, t.s.done)
    else exists l1 :: Lined(t.s, t.highs, t.lows, l1)
  }

  /** What is done is in order, also while more is on its way. */
  lemma {:induction false} OrderedDone(t: Tracked)
    requires Ordered(t)
    ensures Begins(t.highs, t.lows, t.s.done)
  {
    if !t.s.closed {
      var l1 :| Lined(t.s, t.highs, t.lows, l1);
      var z := Front(t.s);
      MergePrefix(t.highs, l1, z, |t.s.done|);
      assert z[..|t.s.done|] == t.s.done;
      BeginsMore(t.highs, l1, t.highs, t.lows, t.s.done);
    }
  }

  // ---------------------------------------------------------------------- steps

  lemma {:induction false} FrontAppend(s: Sock, s': Sock, p: Packet)
    requires s'.done == s.done && s'.direct == s.direct && s'.dw == s.dw && s'.high == s.high + [Buf(p, 0)]
    ensures Front(s') == Front(s) + [p]
  {
    var b := [Buf(p, 0)];
    PacketsApp(s.high, b);
    assert TcpSend.Packets(b) == [p];
  }

  /** Where only the high list and the done packets go before the low list. */
  lemma {:induction false} FrontPlain(s: Sock)
    requires s.direct.None? && s.dw.None?
    ensures Front(s) == s.done + TcpSend.Packets(s.high)
    ensures s.high == [] ==> Front(s) == s.done
  {
    assert s.done + [] + [] == s.done;
    if s.high == [] { assert TcpSend.Packets(s.high) == []; assert s.done + [] == s.done; }
  }

  lemma {:induction false} QueueHigh(s: Sock, s': Sock, p: Packet, highs: Packets, lows: Packets, l1: Packets)
    requires Lined(s, highs, lows, l1) && s'.low == s.low
    requires s'.done == s.done && s'.direct == s.direct && s'.dw == s.dw && s'.high == s.high + [Buf(p, 0)]
    ensures Lined(s', highs + [p], lows, l1)
    ensures s.low == [] ==> Lined(s', highs, lows + [p], lows + [p])
  {
    FrontAppend(s, s', p);
    MergeHigh(highs, l1, Front(s), p);
    if s.low == [] {
      assert TcpSend.Packets(s.low) == [];
      assert lows == l1;
      MergeLow(highs, l1, Front(s), p);
      assert lows + [p] == lows + [p] + [];
    }
  }

  lemma {:induction false} QueueLow(s: Sock, s': Sock, p: Packet, highs: Packets, lows: Packets, l1: Packets)
    requires Lined(s, highs, lows, l1) && s'.low == s.low + [Buf(p, 0)]
    requires s'.done == s.done && s'.direct == s.direct && s'.dw == s.dw && s'.high == s.high
    ensures Lined(s', highs, lows + [p], l1)
  {
    var b := [Buf(p, 0)];
    PacketsApp(s.low, b);
    assert TcpSend.Packets(b) == [p];
    assert l1 + TcpSend.Packets(s.low) + [p] == l1 + (TcpSend.Packets(s.low) + [p]);
  }

  lemma {:induction false} QueueOrdered(t: Tracked, p: Packet, low: bool)
    requires Ordered(t)
    ensures Ordered(Track(t, Queue(p, low)))
  {
    var t' := Track(t, Queue(p, low));
    if !t.s.closed && !t.s.halfclose {
      var l1 :| Lined(t.s, t.highs, t.lows, l1);
      if low && !(SendBufferEmpty(t.s) && t.s.connected) {
        QueueLow(t.s, t'.s, p, t.highs, t.lows, l1);
      } else {
        QueueHigh(t.s, t'.s, p, t.highs, t.lows, l1);
      }
    }
  }

  lemma {:induction false} CheckOrdered(t: Tracked, p: Packet)
    requires Ordered(t)
    ensures Ordered(Track(t, Check(p)))
  {
    var t' := Track(t, Check(p));
    if t'.s != t.s {
      var l1 :| Lined(t.s, t.highs, t.lows, l1);
      FrontPlain(t.s);
      assert TcpSend.Packets(t'.s.high) == [];
      assert Front(t'.s) == t.s.done + [p];
      MergeHigh(t.highs, l1, Front(t.s), p);
      assert Lined(t'.s, t'.highs, t'.lows, l1);
    }
  }

  lemma {:induction false} FrontWritten(s: Sock, io: Io)
    requires s.direct.Some? && s.dw.None?
    ensures Front(DirectWrite(s, io)) == Front(s)
  {
    var s' := DirectWrite(s, io);
    var p := s.direct.v;
    assert s.done + [p] + [] == s.done + [p] && s.done + [p] + [] + [] == s.done + [p] &&
      s.done + [] + [p] == s.done + [p];
  }

  lemma {:induction false} WriteOrdered(t: Tracked, io: Io)
    requires Inv(t.s) && Ordered(t)
    ensures Ordered(Track(t, Write(io)))
  {
    if t.s.direct.Some? {
      var l1 :| Lined(t.s, t.highs, t.lows, l1);
      FrontWritten(t.s, io);
      assert Lined(DirectWrite(t.s, io), t.highs, t.lows, l1);
    }
  }

  /** Nothing that is done is taken back. */
  lemma {:induction false} SendListDone(list: seq<Buf>, wb_size: int, wire: seq<Byte>, done: seq<Packet>, io: seq<Io>)
    ensures done <= SendList(list, wb_size, wire, done, io).done
    decreases |io|
  {
    if list != [] && io != [] {
      var b := list[0];
      match io[0]
      case Interrupted => SendListDone(list, wb_size, wire, done, io[1..]);
      case Count(k) =>
        var n := if k < Left(b) then k else Left(b);
        if n == Left(b) {
          SendListDone(list[1..], wb_size - n, wire + b.data[b.off..b.off + n], done + [b.data], io[1..]);
        }
      case _ =>
    }
  }

  lemma {:induction false} CloseOrdered(s: Sock, highs: Packets, lows: Packets, l1: Packets)
    requires !s.closed && Lined(s, highs, lows, l1)
    ensures Ordered(Tracked(ForceClose(s), highs, lows))
  {
    assert Lined(s, highs, lows, l1);
    OrderedDone(Tracked(s, highs, lows));
  }

  lemma {:induction false} HighOrdered(s: Sock, io: seq<Io>, highs: Packets, lows: Packets, l1: Packets)
    requires Inv(s) && !s.closed && s.direct.None? && s.dw.None? && Lined(s, highs, lows, l1)
    ensures Lined(SendHigh(s, io).0, highs, lows, l1)
  {
    SendListKeeps(s.high, s.wb_size, s.wire, s.done, io);
    FrontPlain(s);
    FrontPlain(SendHigh(s, io).0);
  }

  lemma {:induction false} LowOrdered(s: Sock, io: seq<Io>, highs: Packets, lows: Packets, l1: Packets)
    requires Inv(s) && !s.closed && s.direct.None? && s.dw.None? && s.high == [] && Lined(s, highs, lows, l1)
    ensures var s' := SendLow(s, io).0;
      s'.high == [] && s.done <= s'.done && Lined(s', highs, lows, l1 + s'.done[|s.done|..])
  {
    SendListKeeps(s.low, s.wb_size, s.wire, s.done, io);
    SendListDone(s.low, s.wb_size, s.wire, s.done, io);
    var s' := SendLow(s, io).0;
    var ps := s'.done[|s.done|..];
    assert s'.done == s.done + ps;
    Split(s.done, ps, TcpSend.Packets(s'.low), TcpSend.Packets(s.low));
    FrontPlain(s);
    FrontPlain(s');
    MergeLows(highs, l1, s.done, ps);
    assert lows == l1 + ps + TcpSend.Packets(s'.low);
  }

  lemma {:induction false} Split(a: Packets, b: Packets, c: Packets, d: Packets)
    requires a + b + c == a + d
    ensures b + c == d
  {
    assert (a + b + c)[|a|..] == b + c && (a + d)[|a|..] == d;
  }

  lemma {:induction false} RaiseOrdered(s: Sock, highs: Packets, lows: Packets, l1: Packets)
    requires s.direct.None? && s.dw.None? && s.high == [] && s.low != [] && Lined(s, highs, lows, l1)
    ensures Lined(Raise(s), highs, lows, l1 + [s.low[0].data])
  {
    var p := s.low[0].data;
    PacketsCons(s.low);
    assert TcpSend.Packets(Raise(s).high) == [p];
    FrontPlain(s);
    FrontPlain(Raise(s));
    MergeLow(highs, l1, Front(s), p);
  }

  lemma {:induction false} RestOrdered(s: Sock, io: seq<Io>, highs: Packets, lows: Packets, l1: Packets)
    requires Inv(s) && !s.closed && s.direct.None? && s.dw.None? && s.high == [] && Lined(s, highs, lows, l1)
    ensures Ordered(Tracked(SendRest(s, io).s, highs, lows))
  {
    LowOrdered(s, io, highs, lows, l1);
    var (s2, closed2) := SendLow(s, io);
    var l2 := l1 + s2.done[|s.done|..];
    CloseOrdered(s2, highs, lows, l2);
    if !closed2 && Uncomplete(s2.low) { RaiseOrdered(s2, highs, lows, l2); }
    assert SendRest(s, io).s in {ForceClose(s2), s2} || SendRest(s, io).s == Raise(s2);
  }

  lemma {:induction false} TakeDirectOrdered(s: Sock, highs: Packets, lows: Packets, l1: Packets)
    requires s.direct.None? && Lined(s, highs, lows, l1)
    ensures Lined(TakeDirect(s), highs, lows, l1)
  {
    if s.dw.Some? {
      var s' := TakeDirect(s);
      PacketsCons(s'.high);
      assert s'.high[1..] == s.high;
      assert Front(s') == Front(s);
    }
  }

  lemma {:induction false} SendOrdered(s: Sock, io: seq<Io>, highs: Packets, lows: Packets, l1: Packets)
    requires Inv(s) && !s.closed && s.direct.None? && s.dw.None? && Lined(s, highs, lows, l1)
    ensures Ordered(Tracked(SendBuffer(s, io).s, highs, lows))
  {
    HighOrdered(s, io, highs, lows, l1);
    SendHighInv(s, io);
    var (s1, closed1, io1) := SendHigh(s, io);
    if closed1 {
      CloseOrdered(s1, highs, lows, l1);
      assert SendBuffer(s, io).s == ForceClose(s1);
    } else if s1.high != [] {
      assert SendBuffer(s, io).s == s1;
    } else {
      RestOrdered(s1, io1, highs, lows, l1);
      assert SendBuffer(s, io) == SendRest(s1, io1);
    }
  }

  lemma {:induction false} FlushOrdered(t: Tracked, io: seq<Io>)
    requires Inv(t.s) && Ordered(t)
    ensures Ordered(Track(t, Send(io)))
  {
    if !t.s.closed && t.s.direct.None? && t.s.connected {
      var l1 :| Lined(t.s, t.highs, t.lows, l1);
      TakeDirectInv(t.s);
      TakeDirectOrdered(t.s, t.highs, t.lows, l1);
      SendOrdered(TakeDirect(t.s), io, t.highs, t.lows, l1);
    }
  }

  lemma {:induction false} StepOrdered(t: Tracked, st: Step)
    requires Inv(t.s) && Ordered(t)
    ensures Inv(Track(t, st).s) && Ordered(Track(t, st)) && Track(t, st).s == Apply(t.s, st)
  {
    StepInv(t.s, st);
    match st {
      case Queue(p, low) => QueueOrdered(t, p, low);
      case Check(p) => CheckOrdered(t, p);
      case Write(io) => WriteOrdered(t, io);
      case Send(ios) => FlushOrdered(t, ios);
      case Close =>
        if t.s.direct.None? && !t.s.closed {
          var l1 :| Lined(t.s, t.highs, t.lows, l1);
          CloseOrdered(t.s, t.highs, t.lows, l1);
        }
      case Connected => FlagsOrdered(t, true, t.s.halfclose);
      case HalfClose => FlagsOrdered(t, t.s.connected, true);
    }
  }

  lemma {:induction false} FlagsOrdered(t: Tracked, connected: bool, halfclose: bool)
    requires Ordered(t)
    ensures Ordered(Tracked(t.s.(connected := connected, halfclose := halfclose), t.highs, t.lows))
  {
    var s' := t.s.(connected := connected, halfclose := halfclose);
    if !t.s.closed {
      var l1 :| Lined(t.s, t.highs, t.lows, l1);
      assert Front(s') == Front(t.s);
      assert Lined(s', t.highs, t.lows, l1);
    }
  }

  /** In every run the packets on the wire are an interleaving of the first
      packets accepted with high priority and the first ones accepted with low
      priority, each in the order of acceptance; while the socket is open
      nothing is missing in between. */
  lemma {:induction false} RunOrdered(t: Tracked, steps: seq<Step>)
    requires Inv(t.s) && Ordered(t)
    ensures var t' := TrackAll(t, steps);
      t'.s == Run(t.s, steps) && Ordered(t') && Begins(t'.highs, t'.lows, t'.s.done)
    decreases |steps|
  {
    if steps == [] {
      OrderedDone(t);
    } else {
      StepOrdered(t, steps[0]);
      RunOrdered(Track(t, steps[0]), steps[1..]);
    }
  }

  /** With one priority only, packets are written in the order of acceptance. */
  lemma {:induction false} OnePriority(connected: bool, steps: seq<Step>)
    requires forall i :: 0 <= i < |steps| ==> !(steps[i].Queue? && steps[i].low)
    ensures var t' := TrackAll(Tracked(NewSock(connected), [], []), steps);
      t'.lows == [] && t'.s.done <= t'.highs
  {
    var t := Tracked(NewSock(connected), [], []);
    NewSockInv(connected);
    assert Lined(t.s, [], [], []);
    RunOrdered(t, steps);
    NoLows(t, steps);
    var t' := TrackAll(t, steps);
    var h1, l1 :| h1 <= t'.highs && l1 <= t'.lows && Merge(h1, l1, t'.s.done);
    assert l1 == [];
    MergeAlone(h1, t'.s.done);
  }

  lemma {:induction false} NoLows(t: Tracked, steps: seq<Step>)
    requires t.lows == [] && forall i :: 0 <= i < |steps| ==> !(steps[i].Queue? && steps[i].low)
    ensures TrackAll(t, steps).lows == []
    decreases |steps|
  {
    if steps != [] { NoLows(Track(t, steps[0]), steps[1..]); }
  }
}
