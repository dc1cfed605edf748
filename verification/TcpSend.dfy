/** The send path of a TCP socket in socket_server.c: a high and a low list of
    write buffers, and a slot for what a direct write by another thread could
    not send.  `write` may accept any number of bytes, block, be interrupted or
    fail. */
module TcpSend {
  import opened Common

  type Byte = nat
  type Packet = seq<Byte>

  /** A write buffer: a packet and how much of it has been written. */
  datatype RawBuf = Buf(data: Packet, off: nat)

  type Buf = b: RawBuf | b.off <= |b.data| witness Buf([], 0)

  /** Result of one call of `write`; counts above the size asked for stand for
      the whole size. */
  datatype Io = Count(n: nat) | Again | Interrupted | Broken

  /** A socket, the bytes on the wire, the packets completely written in order,
      those dropped when the socket was closed, and every packet accepted.  `direct` is the packet of a thread
      that holds the lock and is about to write. */
  datatype Sock = Sock(
    high: seq<Buf>, low: seq<Buf>, wb_size: int, dw: Opt<Buf>, direct: Opt<Packet>,
    connected: bool, halfclose: bool, closed: bool,
    wire: seq<Byte>, done: seq<Packet>, dropped: multiset<Packet>, accepted: multiset<Packet>)

  function Flat(ps: seq<Packet>): seq<Byte>
  {
    if ps == [] then [] else ps[0] + Flat(ps[1..])
  }

  lemma {:induction false} FlatSnoc(ps: seq<Packet>, p: Packet)
    ensures Flat(ps + [p]) == Flat(ps) + p
    decreases |ps|
  {
    if ps == [] { assert ps + [p] == [p] && Flat([p][1..]) == []; }
    else {
      assert (ps + [p])[1..] == ps[1..] + [p];
      FlatSnoc(ps[1..], p);
    }
  }

  function Left(b: Buf): nat { |b.data| - b.off }

  /** Bytes still to be sent. */
  function Unsent(l: seq<Buf>): int
  {
    if l == [] then 0 else Left(l[0]) + Unsent(l[1..])
  }

  function Packets(l: seq<Buf>): (ps: seq<Packet>)
    ensures |ps| == |l|
  {
    seq(|l|, i requires 0 <= i < |l| => l[i].data)
  }

  /** What has been sent of the first buffer. */
  function Begun(l: seq<Buf>): seq<Byte>
  {
    if l == [] then [] else l[0].data[..l[0].off]
  }

  /** Only the first buffer may have been begun. */
  ghost predicate Fresh(l: seq<Buf>, from: nat)
  {
    forall i :: from <= i < |l| ==> l[i].off == 0
  }

  // ----------------------------------------------------------------- send_list

  datatype Sent = Sent(list: seq<Buf>, wb_size: int, wire: seq<Byte>, done: seq<Packet>, closed: bool, io: seq<Io>)

  /** `send_list_tcp`; when no result of `write` is left, it would block. */
  function SendList(list: seq<Buf>, wb_size: int, wire: seq<Byte>, done: seq<Packet>, io: seq<Io>): Sent
    decreases |io|
  {
    if list == [] || io == [] then Sent(list, wb_size, wire, done, false, io) else
    var b := list[0];
    match io[0]
    case Interrupted => SendList(list, wb_size, wire, done, io[1..])
    case Again => Sent(list, wb_size, wire, done, false, io[1..])
    case Broken => Sent(list, wb_size, wire, done, true, io[1..])
    case Count(k) =>
      var n := if k < Left(b) then k else Left(b);
      var wire1 := wire + b.data[b.off..b.off + n];
      if n != Left(b) then Sent([Buf(b.data, b.off + n)] + list[1..], wb_size - n, wire1, done, false, io[1..])
      else SendList(list[1..], wb_size - n, wire1, done + [b.data], io[1..])
  }

  /** The wire carries the packets that are done, and the begun part of one. */
  ghost predicate OnWire(list: seq<Buf>, wire: seq<Byte>, done: seq<Packet>)
  {
    wire == Flat(done) + Begun(list)
  }

  lemma {:induction false} SentPart(x: seq<Byte>, b: Buf, n: nat)
    requires b.off + n <= |b.data|
    ensures x + b.data[..b.off] + b.data[b.off..b.off + n] == x + b.data[..b.off + n]
    ensures b.off + n == |b.data| ==> b.data[..b.off + n] == b.data
  {
    assert b.data[..b.off] + b.data[b.off..b.off + n] == b.data[..b.off + n];
  }

  lemma {:induction false} PacketsCons(l: seq<Buf>)
    requires l != []
    ensures Packets(l) == [l[0].data] + Packets(l[1..])
  {
  }

  lemma {:induction false} Regroup(done: seq<Packet>, p: Packet, rest: seq<Packet>)
    ensures done + [p] + rest == done + ([p] + rest)
  {
  }

  lemma {:induction false} SendListKeeps(list: seq<Buf>, wb_size: int, wire: seq<Byte>, done: seq<Packet>, io: seq<Io>)
    requires Fresh(list, 1) && OnWire(list, wire, done)
    ensures var r := SendList(list, wb_size, wire, done, io);
      && Fresh(r.list, 1) && OnWire(r.list, r.wire, r.done) && wire <= r.wire
      && r.wb_size - Unsent(r.list) == wb_size - Unsent(list)
      && r.done + Packets(r.list) == done + Packets(list)
    decreases |io|
  {
    if list != [] && io != [] {
      var b := list[0];
      match io[0]
      case Interrupted => SendListKeeps(list, wb_size, wire, done, io[1..]);
      case Count(k) =>
        var n := if k < Left(b) then k else Left(b);
        var wire1 := wire + b.data[b.off..b.off + n];
        SentPart(Flat(done), b, n);
        if n == Left(b) {
          FlatSnoc(done, b.data);
          PacketsCons(list);
          SendListKeeps(list[1..], wb_size - n, wire1, done + [b.data], io[1..]);
          Regroup(done, b.data, Packets(list[1..]));
        } else {
          var l := [Buf(b.data, b.off + n)] + list[1..];
          assert l[1..] == list[1..] && Packets(l) == Packets(list);
        }
      case _ =>
    }
  }

  // -------------------------------------------------------------------- steps

  predicate SendBufferEmpty(s: Sock) { s.high == [] && s.low == [] }

  /** `send_socket`: the socket thread queues a packet. */
  function Append(s: Sock, p: Packet, low: bool): Sock
  {
    if s.closed || s.halfclose then s else
    var s1 := s.(wb_size := s.wb_size + |p|, accepted := s.accepted + multiset{p});
    if low && !(SendBufferEmpty(s) && s.connected) then s1.(low := s.low + [Buf(p, 0)])
    else s1.(high := s.high + [Buf(p, 0)])
  }

  predicate CanDirectWrite(s: Sock) { SendBufferEmpty(s) && s.dw.None? && s.connected && !s.closed && !s.halfclose }

  /** `socket_server_send` up to the second check, under the lock. */
  function DirectCheck(s: Sock, p: Packet): Sock
  {
    if s.direct.None? && CanDirectWrite(s) then s.(direct := Some(p), accepted := s.accepted + multiset{p}) else s
  }

  /** ... and its `write`; the rest is left for the socket thread. */
  function DirectWrite(s: Sock, io: Io): Sock
  {
    if s.direct.None? then s else
    var p := s.direct.v;
    var n := if io.Count? then (if io.n < |p| then io.n else |p|) else 0;
    var s1 := s.(direct := None, wire := s.wire + p[..n]);
    if n == |p| then s1.(done := s.done + [p]) else s1.(dw := Some(Buf(p, n)))
  }

  /** `force_close` */
  function ForceClose(s: Sock): Sock
  {
    if s.closed then s else
    s.(closed := true, high := [], low := [], dw := None, wb_size := 0, dropped := s.dropped + Pending(s))
  }

  function Pending(s: Sock): multiset<Packet>
  {
    multiset(Packets(s.high)) + multiset(Packets(s.low)) + (if s.dw.Some? then multiset{s.dw.v.data} else multiset{})
  }

  datatype Outcome = Went(s: Sock) | AssertFails(s: Sock)

  /** The direct write buffer goes in front of the high list. */
  function TakeDirect(s: Sock): Sock
  {
    if s.dw.None? then s else s.(high := [s.dw.v] + s.high, wb_size := s.wb_size + Left(s.dw.v), dw := None)
  }

  function SendHigh(s: Sock, io: seq<Io>): (Sock, bool, seq<Io>)
  {
    var r := SendList(s.high, s.wb_size, s.wire, s.done, io);
    (s.(high := r.list, wb_size := r.wb_size, wire := r.wire, done := r.done), r.closed, r.io)
  }

  function SendLow(s: Sock, io: seq<Io>): (Sock, bool)
  {
    var r := SendList(s.low, s.wb_size, s.wire, s.done, io);
    (s.(low := r.list, wb_size := r.wb_size, wire := r.wire, done := r.done), r.closed)
  }

  /** `list_uncomplete` */
  predicate Uncomplete(l: seq<Buf>) { l != [] && l[0].off != 0 }

  /** `raise_uncomplete` */
  function Raise(s: Sock): Sock
    requires s.low != []
  {
    s.(high := [s.low[0]], low := s.low[1..])
  }

  /** `send_buffer_`, the steps of its comment */
  function SendBuffer(s: Sock, io: seq<Io>): Outcome
  {
    var (s1, closed1, io1) := SendHigh(s, io);
    if closed1 then Went(ForceClose(s1))
    else if s1.high != [] then Went(s1)
    else
      SendRest(s1, io1)
  }

  /** The part of `send_buffer_` after the high list has gone out. */
  function SendRest(s: Sock, io: seq<Io>): Outcome
  {
    var (s2, closed2) := SendLow(s, io);
    if closed2 then Went(ForceClose(s2))
    else if Uncomplete(s2.low) then Went(Raise(s2))
    else if !(SendBufferEmpty(s2) && s2.wb_size == 0) then AssertFails(s2)
    else if s2.halfclose then Went(ForceClose(s2))
    else Went(s2)
  }

  /** `send_buffer`: nothing happens while a direct write holds the lock. */
  function Flush(s: Sock, io: seq<Io>): Outcome
  {
    if s.closed || s.direct.Some? then Went(s) else SendBuffer(TakeDirect(s), io)
  }

  // ---------------------------------------------------------------- invariant

  /** The begun part of the one packet that is begun. */
  function Part(s: Sock): seq<Byte>
  {
    if s.dw.Some? then s.dw.v.data[..s.dw.v.off] else Begun(s.high)
  }

  /** Whole packets back to back, and a prefix of at most one more. */
  ghost predicate Integrity(s: Sock)
  {
    exists p: Packet, k: nat :: k <= |p| && s.wire == Flat(s.done) + p[..k] && (k > 0 ==> p in s.accepted)
  }

  ghost predicate Open(s: Sock)
  {
    && Fresh(s.high, if s.dw.Some? || s.direct.Some? then 0 else 1) && Fresh(s.low, 0)
    && (s.direct.Some? ==> s.dw.None?)
    && s.wire == Flat(s.done) + Part(s)
    && s.wb_size == Unsent(s.high) + Unsent(s.low)
  }

  ghost predicate Inv(s: Sock)
  {
    && Balanced(s) && Integrity(s)
    && (if s.closed then s.high == [] && s.low == [] && s.dw.None? && s.direct.None? else Open(s))
  }

  lemma {:induction false} UnsentApp(a: seq<Buf>, b: seq<Buf>)
    ensures Unsent(a + b) == Unsent(a) + Unsent(b)
    decreases |a|
  {
    if a == [] { assert a + b == b; }
    else { assert (a + b)[1..] == a[1..] + b; UnsentApp(a[1..], b); }
  }

  lemma PacketsApp(a: seq<Buf>, b: seq<Buf>)
    ensures Packets(a + b) == Packets(a) + Packets(b)
  {
  }

  lemma {:induction false} OpenIntegrity(s: Sock)
    requires Open(s) && Balanced(s)
    ensures Integrity(s)
  {
    if s.dw.Some? {
      assert s.accepted[s.dw.v.data] == Owed(s, s.dw.v.data);
      assert s.wire == Flat(s.done) + s.dw.v.data[..s.dw.v.off];
    } else if s.high != [] {
      assert Packets(s.high)[0] in multiset(Packets(s.high));
      assert s.accepted[s.high[0].data] == Owed(s, s.high[0].data);
      assert s.wire == Flat(s.done) + s.high[0].data[..s.high[0].off];
    } else {
      var p: Packet := [];
      assert s.wire == Flat(s.done) + p[..0];
    }
  }

  /** How often packet `p` is done, dropped, waiting or being written. */
  function Owed(s: Sock, p: Packet): nat
  {
    multiset(s.done)[p] + s.dropped[p] + Pending(s)[p] + (if s.direct == Some(p) then 1 else 0)
  }

  ghost predicate Balanced(s: Sock)
  {
    forall p :: s.accepted[p] == Owed(s, p)
  }

  lemma {:induction false} AddedBuf(l: seq<Buf>, p: Packet)
    ensures Unsent(l + [Buf(p, 0)]) == Unsent(l) + |p|
    ensures multiset(Packets(l + [Buf(p, 0)])) == multiset(Packets(l)) + multiset{p}
    ensures Begun(l + [Buf(p, 0)]) == Begun(l)
  {
    var b := [Buf(p, 0)];
    UnsentApp(l, b);
    assert Unsent(b) == |p| + Unsent(b[1..]);
    PacketsApp(l, b);
    assert Packets(b) == [p];
  }

  lemma {:induction false} AppendInv(s: Sock, p: Packet, low: bool)
    requires Inv(s)
    ensures Inv(Append(s, p, low))
  {
    if !s.closed && !s.halfclose {
      var s' := Append(s, p, low);
      if s'.high == s.high { AddedBuf(s.low, p); } else { AddedBuf(s.high, p); }
      AppendOpen(s, s', p);
      AppendPending(s, s', p);
      AcceptBalanced(s, s', p);
      OpenIntegrity(s');
    }
  }

  lemma {:induction false} AcceptBalanced(s: Sock, s': Sock, p: Packet)
    requires Balanced(s) && s'.accepted == s.accepted + multiset{p} && s'.done == s.done && s'.dropped == s.dropped
    requires s'.direct == s.direct && Pending(s') == Pending(s) + multiset{p}
    ensures Balanced(s')
  {
    forall q ensures s'.accepted[q] == Owed(s', q) { assert s.accepted[q] == Owed(s, q); }
  }

  lemma {:induction false} AppendPending(s: Sock, s': Sock, p: Packet)
    requires s'.dw == s.dw
    requires (multiset(Packets(s'.high)) == multiset(Packets(s.high)) + multiset{p} && s'.low == s.low)
      || (s'.high == s.high && multiset(Packets(s'.low)) == multiset(Packets(s.low)) + multiset{p})
    ensures Pending(s') == Pending(s) + multiset{p}
  {
  }

  lemma {:induction false} AppendOpen(s: Sock, s': Sock, p: Packet)
    requires Open(s) && s'.dw == s.dw && s'.direct == s.direct && s'.wire == s.wire && s'.done == s.done
    requires s'.wb_size == s.wb_size + |p| && Begun(s'.high) == Begun(s.high) &&
      Unsent(s'.high) + Unsent(s'.low) == s'.wb_size
    requires (s'.high == s.high + [Buf(p, 0)] && s'.low == s.low) ||
      (s'.high == s.high && s'.low == s.low + [Buf(p, 0)])
    ensures Open(s')
  {
  }

  lemma {:induction false} CheckInv(s: Sock, p: Packet)
    requires Inv(s)
    ensures Inv(DirectCheck(s, p))
  {
    if s.direct.None? && CanDirectWrite(s) {
      var s' := DirectCheck(s, p);
      forall q ensures s'.accepted[q] == Owed(s', q) { assert s.accepted[q] == Owed(s, q); }
      OpenIntegrity(s');
    }
  }

  lemma {:induction false} DirectWriteInv(s: Sock, io: Io)
    requires Inv(s)
    ensures Inv(DirectWrite(s, io))
  {
    if s.direct.Some? {
      var s' := DirectWrite(s, io);
      var p := s.direct.v;
      assert p[..|p|] == p;
      DirectOpen(s, s', p);
      DirectBalanced(s, s', p);
      OpenIntegrity(s');
    }
  }

  lemma {:induction false} DirectBalanced(s: Sock, s': Sock, p: Packet)
    requires Balanced(s) && s.direct == Some(p) && s.dw.None? && s'.direct.None?
    requires s'.high == s.high && s'.low == s.low && s'.accepted == s.accepted && s'.dropped == s.dropped
    requires (s'.dw.None? && s'.done == s.done + [p]) || (s'.dw.Some? && s'.dw.v.data == p && s'.done == s.done)
    ensures Balanced(s')
  {
    if s'.dw.None? {
      assert Pending(s') == Pending(s);
      assert multiset(s'.done) == multiset(s.done) + multiset{p};
    } else {
      assert Pending(s') == Pending(s) + multiset{p};
    }
    forall q ensures s'.accepted[q] == Owed(s', q) { assert s.accepted[q] == Owed(s, q); }
  }

  lemma {:induction false} DirectOpen(s: Sock, s': Sock, p: Packet)
    requires Open(s) && s.direct == Some(p)
    requires s'.high == s.high && s'.low == s.low && s'.wb_size == s.wb_size && s'.direct.None?
    requires (s'.dw.None? && s'.done == s.done + [p] && s'.wire == s.wire + p)
      || (s'.dw.Some? && s'.dw.v.data == p && s'.wire == s.wire + p[..s'.dw.v.off] && s'.done == s.done)
    ensures Open(s')
  {
    assert Begun(s.high) == [] && s.wire == Flat(s.done);
    FlatSnoc(s.done, p);
    if s'.dw.None? { assert s'.wire == Flat(s'.done) + []; }
  }

  lemma {:induction false} CloseBalanced(s: Sock)
    requires Balanced(s)
    ensures Balanced(ForceClose(s))
  {
    var s' := ForceClose(s);
    assert Packets([]) == [];
    forall p ensures s'.accepted[p] == Owed(s', p) { assert s.accepted[p] == Owed(s, p); }
  }

  lemma {:induction false} CloseInv(s: Sock)
    requires Inv(s) && s.direct.None?
    ensures Inv(ForceClose(s))
  {
    if !s.closed {
      var s' := ForceClose(s);
      CloseBalanced(s);
      var p: Packet, k: nat :| k <= |p| && s.wire == Flat(s.done) + p[..k] && (k > 0 ==> p in s.accepted);
      assert s'.wire == Flat(s'.done) + p[..k];
    }
  }

  lemma {:induction false} TakeDirectInv(s: Sock)
    requires Inv(s) && !s.closed && s.direct.None?
    ensures Inv(TakeDirect(s)) && Open(TakeDirect(s))
  {
    if s.dw.Some? {
      var s' := TakeDirect(s);
      var b := s.dw.v;
      assert s'.high[1..] == s.high;
      PacketsCons(s'.high);
      assert multiset(Packets(s'.high)) == multiset{b.data} + multiset(Packets(s.high));
      assert Pending(s') == Pending(s);
      forall p ensures s'.accepted[p] == Owed(s', p) { assert s.accepted[p] == Owed(s, p); }
      OpenIntegrity(s');
    }
  }

  /** What sending a list does to the accounts: packets go from the list to the
      done ones. */
  lemma {:induction false} SentBalanced(done: seq<Packet>, l: seq<Packet>, done': seq<Packet>, l': seq<Packet>)
    requires done' + l' == done + l
    ensures forall p :: multiset(done')[p] + multiset(l')[p] == multiset(done)[p] + multiset(l)[p]
  {
    assert multiset(done + l) == multiset(done) + multiset(l);
    assert multiset(done' + l') == multiset(done') + multiset(l');
    forall p ensures multiset(done')[p] + multiset(l')[p] == multiset(done)[p] + multiset(l)[p] {
      assert multiset(done + l)[p] == multiset(done)[p] + multiset(l)[p];
      assert multiset(done' + l')[p] == multiset(done')[p] + multiset(l')[p];
    }
  }

  lemma {:induction false} SendHighInv(s: Sock, io: seq<Io>)
    requires Inv(s) && !s.closed && s.direct.None? && s.dw.None?
    ensures var s' := SendHigh(s, io).0; Inv(s') && s.wire <= s'.wire
  {
    var s' := SendHigh(s, io).0;
    SendListKeeps(s.high, s.wb_size, s.wire, s.done, io);
    SentBalanced(s.done, Packets(s.high), s'.done, Packets(s'.high));
    MovedBalanced(s, s');
    OpenIntegrity(s');
  }

  lemma {:induction false} MovedBalanced(s: Sock, s': Sock)
    requires Balanced(s) && s'.accepted == s.accepted && s'.dropped == s.dropped && s'.direct == s.direct &&
      s'.dw == s.dw
    requires forall p :: multiset(s'.done)[p] + multiset(Packets(s'.high))[p] + multiset(Packets(s'.low))[p] ==
                         multiset(s.done)[p] + multiset(Packets(s.high))[p] + multiset(Packets(s.low))[p]
    ensures Balanced(s')
  {
    forall p ensures s'.accepted[p] == Owed(s', p) { assert s.accepted[p] == Owed(s, p); }
  }

  /** The low list is sent while nothing is begun; its first buffer may then be. */
  lemma {:induction false} SendLowKeeps(s: Sock, io: seq<Io>)
    requires Inv(s) && !s.closed && s.direct.None? && s.dw.None? && s.high == []
    ensures var s' := SendLow(s, io).0;
      && Balanced(s') && Fresh(s'.low, 1) && s'.wire == Flat(s'.done) + Begun(s'.low) && s.wire <= s'.wire
      && s'.wb_size == Unsent(s'.low)
  {
    var s' := SendLow(s, io).0;
    SendListKeeps(s.low, s.wb_size, s.wire, s.done, io);
    SentBalanced(s.done, Packets(s.low), s'.done, Packets(s'.low));
    MovedBalanced(s, s');
  }

  /** A begun low buffer becomes the high list. */
  lemma {:induction false} RaiseInv(s: Sock)
    requires !s.closed && s.direct.None? && s.dw.None? && s.high == [] && s.low != []
    requires Balanced(s) && Fresh(s.low, 1) && s.wire == Flat(s.done) + Begun(s.low) && s.wb_size == Unsent(s.low)
    ensures Inv(Raise(s))
  {
    var s' := Raise(s);
    PacketsCons(s.low);
    assert Packets(s'.high) == [s.low[0].data];
    assert multiset(Packets(s.low)) == multiset{s.low[0].data} + multiset(Packets(s'.low));
    MovedBalanced(s, s');
    assert Unsent(s'.high) == Left(s.low[0]) + Unsent(s'.high[1..]);
    OpenIntegrity(s');
  }

  /** After the low list: its first buffer has not been begun, so all is well. */
  lemma {:induction false} RestInv(s: Sock)
    requires !s.closed && s.direct.None? && s.dw.None? && s.high == [] && !Uncomplete(s.low)
    requires Balanced(s) && Fresh(s.low, 1) && s.wire == Flat(s.done) + Begun(s.low) && s.wb_size == Unsent(s.low)
    ensures Inv(s)
  {
    assert Begun(s.low) == [];
    OpenIntegrity(s);
  }

  /** A failed write in the low list closes the socket where it is. */
  lemma {:induction false} LowCloseInv(s: Sock)
    requires !s.closed && s.direct.None? && s.dw.None? && s.high == []
    requires Balanced(s) && s.wire == Flat(s.done) + Begun(s.low)
    ensures Inv(ForceClose(s))
  {
    var s' := ForceClose(s);
    CloseBalanced(s);
    if s.low != [] {
      assert Packets(s.low)[0] in multiset(Packets(s.low));
      assert s.accepted[s.low[0].data] == Owed(s, s.low[0].data);
      assert s'.wire == Flat(s'.done) + s.low[0].data[..s.low[0].off];
    } else {
      var p: Packet := [];
      assert s'.wire == Flat(s'.done) + p[..0];
    }
  }

  /** Whatever `write` answers, sending keeps the invariant, and only adds to
      the wire. */
  lemma {:induction false} FlushInv(s: Sock, io: seq<Io>)
    requires Inv(s)
    ensures Inv(Flush(s, io).s) && s.wire <= Flush(s, io).s.wire
  {
    if !s.closed && s.direct.None? {
      TakeDirectInv(s);
      SendBufferInv(TakeDirect(s), io);
    }
  }

  lemma {:induction false} SendBufferInv(s: Sock, io: seq<Io>)
    requires Inv(s) && !s.closed && s.direct.None? && s.dw.None?
    ensures Inv(SendBuffer(s, io).s) && s.wire <= SendBuffer(s, io).s.wire
  {
    SendHighInv(s, io);
    var (s1, closed1, io1) := SendHigh(s, io);
    if closed1 {
      CloseInv(s1);
      assert SendBuffer(s, io) == Went(ForceClose(s1));
    } else if s1.high != [] {
      assert SendBuffer(s, io) == Went(s1);
    } else {
      LowInv(s1, io1);
      assert SendBuffer(s, io) == SendRest(s1, io1);
    }
  }

  lemma {:induction false} LowInv(s: Sock, io: seq<Io>)
    requires Inv(s) && !s.closed && s.direct.None? && s.dw.None? && s.high == []
    ensures Inv(SendRest(s, io).s) && s.wire <= SendRest(s, io).s.wire
    ensures SendRest(s, io).AssertFails? <==> var (s2, closed2) := SendLow(s, io);
      !closed2 && s2.low != [] && s2.low[0].off == 0
  {
    SendLowKeeps(s, io);
    var (s2, closed2) := SendLow(s, io);
    if closed2 {
      LowCloseInv(s2);
      assert SendRest(s, io) == Went(ForceClose(s2));
    } else if Uncomplete(s2.low) {
      RaiseInv(s2);
      assert SendRest(s, io) == Went(Raise(s2));
    } else {
      RestInv(s2);
      CloseInv(s2);
      assert SendRest(s, io).s == s2 || SendRest(s, io).s == ForceClose(s2);
    }
  }

  // -------------------------------------------------------- the assertion

  /** The assertion of step 4 fails exactly when the high list went out
      completely and the low list then stopped, unclosed, between two packets. */
  lemma {:induction false} AssertFailsIff(s: Sock, io: seq<Io>)
    requires Inv(s) && !s.closed && s.direct.None?
    ensures var (s1, closed1, io1) := SendHigh(TakeDirect(s), io);
      var (s2, closed2) := SendLow(s1, io1);
      Flush(s, io).AssertFails? <==> !closed1 && s1.high == [] && !closed2 && s2.low != [] && s2.low[0].off == 0
  {
    TakeDirectInv(s);
    var s0 := TakeDirect(s);
    SendHighInv(s0, io);
    var (s1, closed1, io1) := SendHigh(s0, io);
    assert Flush(s, io) == SendBuffer(s0, io);
    if !closed1 && s1.high == [] {
      LowInv(s1, io1);
      assert SendBuffer(s0, io) == SendRest(s1, io1);
    }
  }

  /** Answers of `write` that let the whole list through. */
  function TakeAll(list: seq<Buf>): seq<Io>
  {
    if list == [] then [] else [Count(Left(list[0]))] + TakeAll(list[1..])
  }

  lemma {:induction false} TakenAll(list: seq<Buf>, wb_size: int, wire: seq<Byte>, done: seq<Packet>, io: seq<Io>)
    ensures var r := SendList(list, wb_size, wire, done, TakeAll(list) + io); r.list == [] && !r.closed && r.io == io
    decreases |list|
  {
    if list == [] {
      assert TakeAll(list) + io == io;
    } else {
      var b := list[0];
      assert (TakeAll(list) + io)[1..] == TakeAll(list[1..]) + io;
      TakenAll(list[1..], wb_size - Left(b), wire + b.data[b.off..b.off + Left(b)], done + [b.data], io);
    }
  }

  /** Some behaviour of `write` reaches the failing assertion exactly when the
      low list is not empty. */
  lemma {:induction false} AssertReachableIff(s: Sock)
    requires Inv(s) && !s.closed && s.direct.None?
    ensures (exists io :: Flush(s, io).AssertFails?) <==> s.low != []
  {
    if s.low != [] {
      var s0 := TakeDirect(s);
      var io := TakeAll(s0.high) + [Again];
      TakenAll(s0.high, s0.wb_size, s0.wire, s0.done, [Again]);
      AssertFailsIff(s, io);
      assert Flush(s, io).AssertFails?;
    } else {
      forall io ensures !Flush(s, io).AssertFails? { AssertFailsIff(s, io); }
    }
  }

  // --------------------------------------------------------------------- runs

  datatype Step =
    | Queue(p: Packet, low: bool)      // the socket thread gets a send request
    | Check(p: Packet)                 // another thread gets the lock
    | Write(io: Io)                    // ... and writes directly
    | Send(ios: seq<Io>)               // the socket is writable
    | Connected                        // the pending connect has succeeded
    | HalfClose
    | Close

  function Apply(s: Sock, st: Step): Sock
  {
    match st
    case Queue(p, low) => Append(s, p, low)
    case Check(p) => DirectCheck(s, p)
    case Write(io) => DirectWrite(s, io)
    case Send(ios) => if s.connected then Flush(s, ios).s else s
    case Connected => s.(connected := true)
    case HalfClose => s.(halfclose := true)
    case Close => if s.direct.None? then ForceClose(s) else s
  }

  function Run(s: Sock, steps: seq<Step>): Sock
    decreases |steps|
  {
    if steps == [] then s else Run(Apply(s, steps[0]), steps[1..])
  }

  /** However direct writes and the socket thread interleave and whatever counts
      `write` returns: the wire carries whole packets back to back and a prefix
      of at most one more, `wb_size` is what both lists have left to send, no
      packet of the low list is begun, and every accepted packet is done, waits
      or was dropped by a close, once. */
  lemma {:induction false} RunIntegrity(s: Sock, steps: seq<Step>)
    requires Inv(s)
    ensures Inv(Run(s, steps))
    ensures var s' := Run(s, steps);
      && s.wire <= s'.wire
      && (exists p: Packet, k: nat :: k <= |p| && s'.wire == Flat(s'.done) + p[..k] && (k > 0 ==> p in s'.accepted))
      && (forall p :: s'.accepted[p] == Owed(s', p))
      && (!s'.closed ==> s'.wb_size == Unsent(s'.high) + Unsent(s'.low) && forall i :: 0 <= i < |s'.low| ==>
          s'.low[i].off == 0)
    decreases |steps|
  {
    if steps != [] {
      StepInv(s, steps[0]);
      StepGrows(s, steps[0]);
      RunIntegrity(Apply(s, steps[0]), steps[1..]);
    }
  }

  lemma {:induction false} StepInv(s: Sock, st: Step)
    requires Inv(s)
    ensures Inv(Apply(s, st))
  {
    match st {
      case Queue(p, low) => AppendInv(s, p, low);
      case Check(p) => CheckInv(s, p);
      case Write(io) => DirectWriteInv(s, io);
      case Send(ios) => FlushInv(s, ios);
      case Connected => FlagsInv(s, true, s.halfclose);
      case HalfClose => FlagsInv(s, s.connected, true);
      case Close => if s.direct.None? { CloseInv(s); }
    }
  }

  /** What is on the wire stays there. */
  lemma {:induction false} StepGrows(s: Sock, st: Step)
    requires Inv(s)
    ensures s.wire <= Apply(s, st).wire
  {
    if st.Send? { FlushInv(s, st.ios); }
  }

  lemma {:induction false} FlagsInv(s: Sock, connected: bool, halfclose: bool)
    requires Inv(s)
    ensures Inv(s.(connected := connected, halfclose := halfclose))
  {
    var s' := s.(connected := connected, halfclose := halfclose);
    var p: Packet, k: nat :| k <= |p| && s.wire == Flat(s.done) + p[..k] && (k > 0 ==> p in s.accepted);
    assert s'.wire == Flat(s'.done) + p[..k];
    forall q ensures s'.accepted[q] == Owed(s', q) { assert s.accepted[q] == Owed(s, q); }
  }

  /** A socket before anything was sent. */
  function NewSock(connected: bool): Sock
  {
    Sock([], [], 0, None, None, connected, false, false, [], [], multiset{}, multiset{})
  }

  lemma {:induction false} NewSockInv(connected: bool)
    ensures Inv(NewSock(connected))
  {
    var s := NewSock(connected);
    assert Packets(s.high) == [] && Packets(s.low) == [];
    OpenIntegrity(s);
  }

  /** A run that reaches the failing assertion: a packet of low priority is queued
      while the socket connects, and the first write on the connected socket
      blocks. */
  lemma {:induction false} AssertCanFail(p: Packet)
    requires p != []
    ensures var s := Run(NewSock(false), [Queue(p, true), Connected]);
      Inv(s) && s.connected && Flush(s, [Again]).AssertFails?
  {
    var steps := [Queue(p, true), Connected];
    NewSockInv(false);
    RunIntegrity(NewSock(false), steps);
    var s := Append(NewSock(false), p, true).(connected := true);
    assert steps[1..] == [Connected] && [Connected][1..] == [];
    assert Run(NewSock(false), steps) == Run(Apply(NewSock(false), steps[0]), [Connected]) == Run(s, []) == s;
    LowBlocked(s, p);
  }

  lemma {:induction false} LowBlocked(s: Sock, p: Packet)
    requires !s.closed && s.direct.None? && s.dw.None? && s.high == [] && s.low == [Buf(p, 0)]
    ensures Flush(s, [Again]).AssertFails?
  {
    assert SendHigh(s, [Again]) == (s, false, [Again]);
    assert SendLow(s, [Again]) == (s, false);
  }

  // ------------------------------------------------------------------- in place

  /** The loop of `send_list_tcp`. */
  method SendListTcp(list0: seq<Buf>, wb0: int, wire0: seq<Byte>, done0: seq<Packet>, io0: seq<Io>) returns (r: Sent)
    ensures r == SendList(list0, wb0, wire0, done0, io0)
  {
    var list, wb_size, wire, done, io := list0, wb0, wire0, done0, io0;
    while list != [] && io != []
      invariant SendList(list, wb_size, wire, done, io) == SendList(list0, wb0, wire0, done0, io0)
      decreases |io|
    {
      var tmp, result := list[0], io[0];
      io := io[1..];
      match result {
        case Interrupted =>
        case Again => return Sent(list, wb_size, wire, done, false, io);
        case Broken => return Sent(list, wb_size, wire, done, true, io);
        case Count(k) =>
          var sz := if k < Left(tmp) then k else Left(tmp);
          wire := wire + tmp.data[tmp.off..tmp.off + sz];
          wb_size := wb_size - sz;
          if sz != Left(tmp) {
            return Sent([Buf(tmp.data, tmp.off + sz)] + list[1..], wb_size, wire, done, false, io);
          }
          list := list[1..];
          done := done + [tmp.data];
      }
    }
    r := Sent(list, wb_size, wire, done, false, io);
  }

  /** What became of packets. */
  datatype Trail = Trail(wire: seq<Byte>, done: seq<Packet>, dropped: multiset<Packet>, accepted: multiset<Packet>)

  class Socket {
    var high: seq<Buf>
    var low: seq<Buf>
    var wb_size: int
    var dw: Opt<Buf>
    var direct: Opt<Packet>
    var connected: bool
    var halfclose: bool
    var closed: bool
    var trail: Trail

    function Abs(): Sock
      reads this
    {
      Sock(high, low, wb_size, dw, direct, connected, halfclose, closed, trail.wire, trail.done, trail.dropped,
        trail.accepted)
    }

    ghost predicate Valid()
      reads this
    {
      Inv(Abs())
    }

    constructor (conn: bool)
      ensures Valid() && Abs() == NewSock(conn)
    {
      high, low, wb_size, dw, direct := [], [], 0, None, None;
      connected, halfclose, closed := conn, false, false;
      trail := Trail([], [], multiset{}, multiset{});
      new;
      assert Abs() == NewSock(conn);
      NewSockInv(conn);
    }

    /** `append_sendbuffer_` for one of the two lists */
    method AppendSendbuffer(p: Packet, toLow: bool)
      modifies this
      ensures Abs() == old(Abs()).(
        high := if toLow then old(high) else old(high) + [Buf(p, 0)],
        low := if toLow then old(low) + [Buf(p, 0)] else old(low),
        wb_size := old(wb_size) + |p|, accepted := old(trail).accepted + multiset{p})
    {
      if toLow { low := low + [Buf(p, 0)]; } else { high := high + [Buf(p, 0)]; }
      wb_size := wb_size + |p|;
      trail := trail.(accepted := trail.accepted + multiset{p});
    }

    /** `send_socket` */
    method SendSocket(p: Packet, priorityLow: bool)
      modifies this
      ensures Abs() == Append(old(Abs()), p, priorityLow)
    {
      if closed || halfclose { return; }
      if high == [] && low == [] && connected {
        AppendSendbuffer(p, false);
      } else {
        AppendSendbuffer(p, priorityLow);
      }
    }

    /** `force_close` */
    method Close()
      modifies this
      ensures Abs() == ForceClose(old(Abs()))
    {
      if closed { return; }
      trail := trail.(dropped := trail.dropped + Pending(Abs()));
      FreeLists();
    }

    /** `free_wb_list` on both lists, and the direct buffer */
    method FreeLists()
      modifies this
      ensures Abs() == old(Abs()).(closed := true, high := [], low := [], dw := None, wb_size := 0)
    {
      closed, high, low, dw, wb_size := true, [], [], None, 0;
    }

    method SendHighList(io: seq<Io>) returns (close: bool, rest: seq<Io>)
      modifies this
      ensures (Abs(), close, rest) == SendHigh(old(Abs()), io)
    {
      var r := SendListTcp(high, wb_size, trail.wire, trail.done, io);
      high, wb_size := r.list, r.wb_size;
      trail := trail.(wire := r.wire, done := r.done);
      close, rest := r.closed, r.io;
    }

    method SendLowList(io: seq<Io>) returns (close: bool)
      modifies this
      ensures (Abs(), close) == SendLow(old(Abs()), io)
    {
      var r := SendListTcp(low, wb_size, trail.wire, trail.done, io);
      low, wb_size := r.list, r.wb_size;
      trail := trail.(wire := r.wire, done := r.done);
      close := r.closed;
    }

    /** `send_buffer_`; the result tells whether the assertion of step 4 holds. */
    method SendLists(io: seq<Io>) returns (assertion: bool)
      modifies this
      ensures Abs() == SendBuffer(old(Abs()), io).s && assertion == SendBuffer(old(Abs()), io).Went?
    {
      var close, rest := SendHighList(io);
      if close { Close(); return true; }
      if high != [] { return true; }
      close := SendLowList(rest);
      if close { Close(); return true; }
      if low != [] && low[0].off != 0 {
        high, low := [low[0]], low[1..];
        return true;
      }
      if !(low == [] && wb_size == 0) { return false; }
      if halfclose { Close(); }
      return true;
    }

    /** `send_buffer` */
    method TrySend(io: seq<Io>) returns (assertion: bool)
      modifies this
      ensures Abs() == Flush(old(Abs()), io).s && assertion == Flush(old(Abs()), io).Went?
    {
      if closed || direct.Some? { return true; }
      if dw.Some? { PutDirectFirst(); }
      assertion := SendLists(io);
    }

    method PutDirectFirst()
      requires dw.Some?
      modifies this
      ensures Abs() == TakeDirect(old(Abs()))
    {
      high := [dw.v] + high;
      wb_size := wb_size + Left(dw.v);
      dw := None;
    }

    /** `socket_server_send` under the lock: the check. */
    method CheckDirect(p: Packet)
      modifies this
      ensures Abs() == DirectCheck(old(Abs()), p)
    {
      if direct.None? && high == [] && low == [] && dw.None? && connected && !closed && !halfclose {
        direct := Some(p);
        trail := trail.(accepted := trail.accepted + multiset{p});
      }
    }

    /** ... and the write. */
    method WriteDirect(io: Io)
      modifies this
      ensures Abs() == DirectWrite(old(Abs()), io)
    {
      if direct.None? { return; }
      var p := direct.v;
      var n := if io.Count? then (if io.n < |p| then io.n else |p|) else 0;
      direct := None;
      trail := trail.(wire := trail.wire + p[..n]);
      if n == |p| { trail := trail.(done := trail.done + [p]); } else { dw := Some(Buf(p, n)); }
    }

    /** Whatever happens to the socket, the invariant holds afterwards. */
    method Perform(st: Step)
      requires Valid()
      modifies this
      ensures Valid() && Abs() == Apply(old(Abs()), st)
    {
      StepInv(Abs(), st);
      Do(st);
    }

    method Do(st: Step)
      modifies this
      ensures Abs() == Apply(old(Abs()), st)
    {
      match st {
        case Queue(p, low) => SendSocket(p, low);
        case Check(p) => CheckDirect(p);
        case Write(io) => WriteDirect(io);
        case Send(ios) => if connected { var _ := TrySend(ios); }
        case Connected => connected := true;
        case HalfClose => halfclose := true;
        case Close => if direct.None? { Close(); }
      }
    }
  }
}
