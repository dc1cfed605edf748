/** The package service of src/service/package.c: frames from a socket and
    requests from other services, paired in order. */
module PackageService {
  import opened Framing
  import MQ = MessageQueue

  // -------------------------------------------------------------- pairing

  /** A request: who asked, and with which session. */
  datatype Req = Req(source: nat, session: nat)

  datatype Reply = Answer(req: Req, data: Bytes) | Refused(req: Req)

  /** The two queues, and the history: all requests and all packets in order of
      arrival, and all replies in order of sending. */
  datatype Pkg = Pkg(
    requests: seq<Req>, responses: seq<Bytes>, closed: bool,
    reqs: seq<Req>, pkts: seq<Bytes>, replies: seq<Reply>)

  /** `response`: pair while there is something to pair. */
  function Respond(s: Pkg): Pkg
    decreases |s.requests|
  {
    if s.requests == [] || s.responses == [] then s
    else Respond(s.(requests := s.requests[1..], responses := s.responses[1..],
                    replies := s.replies + [Answer(s.requests[0], s.responses[0])]))
  }

  /** `command` 'R' */
  function Request(s: Pkg, r: Req): Pkg
  {
    var s1 := s.(reqs := s.reqs + [r]);
    if s.closed then s1.(replies := s.replies + [Refused(r)])
    else if s.responses != [] then
      s1.(responses := s.responses[1..], replies := s.replies + [Answer(r, s.responses[0])])
    else s1.(requests := s.requests + [r])
  }

  /** Frames have been completed. */
  function Arrive(s: Pkg, ps: seq<Bytes>): Pkg
  {
    Respond(s.(responses := s.responses + ps, pkts := s.pkts + ps))
  }

  function RefuseAll(s: Pkg): Pkg
    decreases |s.requests|
  {
    if s.requests == [] then s
    else RefuseAll(s.(requests := s.requests[1..], replies := s.replies + [Refused(s.requests[0])]))
  }

  /** The socket is closed: `response`, then `service_exit`. */
  function Exit(s: Pkg): Pkg
  {
    RefuseAll(Respond(s).(closed := true)).(responses := [])
  }

  /** The first `n` replies go, in order, to the requests; the data is that of
      the packet with the same number. */
  ghost predicate Replied(s: Pkg)
  {
    && |s.replies| <= |s.reqs|
    && forall i :: 0 <= i < |s.replies| ==> ReplyOk(s, i)
  }

  ghost predicate ReplyOk(s: Pkg, i: int)
    requires 0 <= i < |s.replies| <= |s.reqs|
  {
    match s.replies[i]
    case Answer(r, d) => r == s.reqs[i] && i < |s.pkts| && d == s.pkts[i]
    case Refused(r) => r == s.reqs[i] && s.closed
  }

  /** What holds at all times, also between the steps of one message. */
  ghost predicate Loose(s: Pkg)
  {
    && Replied(s) && s.requests == s.reqs[|s.replies|..]
    && (!s.closed ==> |s.replies| <= |s.pkts| && s.responses == s.pkts[|s.replies|..])
    && (s.closed ==> s.requests == [])
  }

  /** What holds between messages: the queues are never both in use. */
  ghost predicate Inv(s: Pkg)
  {
    Loose(s) && (s.requests == [] || s.responses == [])
  }

  lemma {:induction false} RespondInv(s: Pkg)
    requires Loose(s)
    ensures Inv(Respond(s)) && Respond(s) == Respond(s).(closed := s.closed, reqs := s.reqs, pkts := s.pkts)
    decreases |s.requests|
  {
    if s.requests != [] && s.responses != [] {
      var s' := s.(requests := s.requests[1..], responses := s.responses[1..],
                   replies := s.replies + [Answer(s.requests[0], s.responses[0])]);
      var n := |s.replies|;
      assert s.requests[0] == s.reqs[n] && s.responses[0] == s.pkts[n];
      assert s'.requests == s.reqs[n + 1..] && s'.responses == s.pkts[n + 1..];
      forall i | 0 <= i < n + 1 ensures ReplyOk(s', i) { if i < n { assert ReplyOk(s, i); } }
      RespondInv(s');
    }
  }

  lemma {:induction false} ArriveInv(s: Pkg, ps: seq<Bytes>)
    requires Inv(s)
    ensures Inv(Arrive(s, ps))
  {
    var s' := s.(responses := s.responses + ps, pkts := s.pkts + ps);
    forall i | 0 <= i < |s'.replies| ensures ReplyOk(s', i) { assert ReplyOk(s, i); }
    if !s.closed { assert s'.responses == s'.pkts[|s'.replies|..]; }
    RespondInv(s');
  }

  lemma {:induction false} RequestInv(s: Pkg, r: Req)
    requires Inv(s)
    ensures Inv(Request(s, r))
  {
    var s' := Request(s, r);
    var n := |s.replies|;
    assert s.requests == [] ==> n == |s.reqs|;
    forall i | 0 <= i < |s'.replies| ensures ReplyOk(s', i) { if i < n { assert ReplyOk(s, i); } }
    if !s.closed && s.responses != [] { assert s.responses[0] == s.pkts[n] && s'.responses == s.pkts[n + 1..]; }
    assert s'.requests == s'.reqs[|s'.replies|..];
  }

  /** While requests are refused. */
  ghost predicate Refusing(s: Pkg)
  {
    Replied(s) && s.closed && s.requests == s.reqs[|s.replies|..]
  }

  lemma {:induction false} RefuseAllInv(s: Pkg)
    requires Refusing(s)
    ensures var s' := RefuseAll(s); Refusing(s') && s'.requests == [] && |s'.replies| == |s.reqs|
    ensures RefuseAll(s) == s.(requests := [], replies := RefuseAll(s).replies) && s.replies <= RefuseAll(s).replies
    decreases |s.requests|
  {
    if s.requests != [] {
      var s' := s.(requests := s.requests[1..], replies := s.replies + [Refused(s.requests[0])]);
      assert s'.requests == s.reqs[|s'.replies|..];
      forall i | 0 <= i < |s'.replies| ensures ReplyOk(s', i) { if i < |s.replies| { assert ReplyOk(s, i); } }
      RefuseAllInv(s');
    }
  }

  /** After the close every request has had exactly one reply. */
  lemma {:induction false} ExitInv(s: Pkg)
    requires Inv(s)
    ensures Inv(Exit(s)) && Exit(s).closed && |Exit(s).replies| == |s.reqs|
  {
    RespondInv(s);
    var s1 := Respond(s).(closed := true);
    forall i | 0 <= i < |s1.replies| ensures ReplyOk(s1, i) { assert ReplyOk(Respond(s), i); }
    RefuseAllInv(s1);
    var s2 := RefuseAll(s1);
    var s' := Exit(s);
    forall i | 0 <= i < |s'.replies| ensures ReplyOk(s', i) { assert ReplyOk(s2, i); }
  }

  // ----------------------------------------------------------------- runs

  datatype Event = Ask(r: Req) | Packets(ps: seq<Bytes>) | Closed

  function Apply(s: Pkg, ev: Event): Pkg
  {
    match ev
    case Ask(r) => Request(s, r)
    case Packets(ps) => Arrive(s, ps)
    case Closed => Exit(s)
  }

  function Run(s: Pkg, events: seq<Event>): Pkg
    decreases |events|
  {
    if events == [] then s else Run(Apply(s, events[0]), events[1..])
  }

  const Start: Pkg := Pkg([], [], false, [], [], [])

  lemma {:induction false} RunInv(s: Pkg, events: seq<Event>)
    requires Inv(s)
    ensures Inv(Run(s, events))
    decreases |events|
  {
    if events != [] {
      match events[0] {
        case Ask(r) => RequestInv(s, r);
        case Packets(ps) => ArriveInv(s, ps);
        case Closed => ExitInv(s);
      }
      RunInv(Apply(s, events[0]), events[1..]);
    }
  }

  /** Over every run: the k-th reply goes to the k-th request, with the k-th
      packet unless the service was closed; never both queues are in use; and
      once closed no request is without its reply. */
  lemma {:induction false} Pairing(events: seq<Event>)
    ensures var s := Run(Start, events);
      && (s.requests == [] || s.responses == [])
      && Replied(s) && s.requests == s.reqs[|s.replies|..]
      && (s.closed ==> |s.replies| == |s.reqs|)
  {
    RunInv(Start, events);
  }

  /** The requests made in a run, in order. */
  function Asked(events: seq<Event>): seq<Req>
    decreases |events|
  {
    if events == [] then [] else (if events[0].Ask? then [events[0].r] else []) + Asked(events[1..])
  }

  /** The packets that came in a run, in order. */
  function Came(events: seq<Event>): seq<Bytes>
    decreases |events|
  {
    if events == [] then [] else (if events[0].Packets? then events[0].ps else []) + Came(events[1..])
  }

  /** One step adds to the history what it brings, and nothing else. */
  lemma {:induction false} ApplyHistory(s: Pkg, ev: Event)
    requires Inv(s)
    ensures Inv(Apply(s, ev))
    ensures Apply(s, ev).reqs == s.reqs + (if ev.Ask? then [ev.r] else [])
    ensures Apply(s, ev).pkts == s.pkts + (if ev.Packets? then ev.ps else [])
    ensures Apply(s, ev).closed == (s.closed || ev == Closed)
  {
    match ev {
      case Ask(r) => RequestInv(s, r);
      case Packets(ps) =>
        ArriveInv(s, ps);
        RespondPkts(s.(responses := s.responses + ps, pkts := s.pkts + ps));
      case Closed =>
        ExitInv(s);
        ExitKeeps(s);
    }
  }

  lemma {:induction false} Appended<T>(a: seq<T>, b: seq<T>, c: seq<T>)
    ensures a + b + c == a + (b + c)
  {
  }

  lemma {:induction false} RunHistory(s: Pkg, events: seq<Event>)
    requires Inv(s)
    ensures var s' := Run(s, events);
      s'.reqs == s.reqs + Asked(events) && s'.pkts == s.pkts + Came(events) &&
        s'.closed == (s.closed || Closed in events)
    decreases |events|
  {
    if events != [] {
      var s1, rest := Apply(s, events[0]), events[1..];
      ApplyHistory(s, events[0]);
      RunHistory(s1, rest);
      assert Run(s, events) == Run(s1, rest);
      Appended(s.reqs, if events[0].Ask? then [events[0].r] else [], Asked(rest));
      Appended(s.pkts, if events[0].Packets? then events[0].ps else [], Came(rest));
    }
  }

  /** No request is lost: it is waiting, in order, or it has had its reply; and
      an open service has replied to as many as there were packets for. */
  lemma {:induction false} NoneLost(events: seq<Event>)
    ensures var s := Run(Start, events); var asked, came := Asked(events), Came(events);
      && s.reqs == asked && s.pkts == came && |s.replies| + |s.requests| == |asked|
      && (forall i :: 0 <= i < |s.replies| ==> s.replies[i].req == asked[i])
      && s.requests == asked[|s.replies|..]
      && s.closed == (Closed in events) && (!s.closed ==> |s.replies| == Least(|asked|, |came|))
  {
    RunInv(Start, events);
    RunHistory(Start, events);
    var s := Run(Start, events);
    forall i | 0 <= i < |s.replies| ensures s.replies[i].req == s.reqs[i] { assert ReplyOk(s, i); }
  }

  function Least(a: nat, b: nat): nat
  {
    if a < b then a else b
  }

  // ------------------------------------------------------------------- queue

  /** The growing ring queue of package.c */
  class RingQueue<T(0)> {
    var buffer: array<T>
    var head: nat
    var tail: nat

    ghost predicate Valid()
      reads this
    {
      head < buffer.Length && tail < buffer.Length
    }

    ghost function Contents(): seq<T>
      requires Valid()
      reads this, buffer
    {
      MQ.Ring(buffer[..], head, tail)
    }

    /** `queue_init` */
    constructor ()
      ensures Valid() && Contents() == [] && fresh(buffer)
    {
      buffer := new T[4];
      head, tail := 0, 0;
    }

    /** `queue_pop`; `false` when the queue is empty. */
    method Pop() returns (ok: bool, value: T)
      requires Valid()
      modifies this
      ensures Valid() && buffer == old(buffer) && ok == (old(Contents()) != [])
      ensures if ok then old(Contents()) == [value] + Contents() else Contents() == []
    {
      value := *;
      if head == tail { return false, value; }
      MQ.PopRing(buffer[..], head, tail);
      value := buffer[head];
      head := head + 1;
      if head >= buffer.Length { head := 0; }
      ok := true;
    }

    /** `queue_push`: the slot is reserved, the buffer doubled when it is full,
        and the value written last. */
    method Push(value: T)
      requires Valid()
      modifies this, buffer
      ensures Valid() && (buffer == old(buffer) || fresh(buffer)) && Contents() == old(Contents()) + [value]
    {
      ghost var a, t0 := buffer[..], tail;
      var slot := tail;
      tail := tail + 1;
      if tail >= buffer.Length { tail := 0; }
      MQ.PushRing(a, head, t0, value, tail);
      if head == tail {
        var cap := buffer.Length;
        var tmp := Unroll(cap);
        ghost var b := a[t0 := value];
        FullCopy(a, head, t0, value, tmp[..cap]);
        head, tail, buffer := 0, cap, tmp;
        buffer[cap - 1] := value;
        assert buffer[..cap] == tmp[..cap];
        assert MQ.Ring(buffer[..], 0, cap) == buffer[..cap];
      } else {
        buffer[slot] := value;
        assert buffer[..] == a[t0 := value];
      }
    }

    /** The elements from the head on, in a buffer of twice the size. */
    method Unroll(cap: nat) returns (tmp: array<T>)
      requires Valid() && cap == buffer.Length
      ensures fresh(tmp) && tmp.Length == 2 * cap && forall i :: 0 <= i < cap ==>
        tmp[i] == buffer[MQ.Wrap(head, i, cap)]
    {
      tmp := new T[cap * 2];
      var h := head;
      for i := 0 to cap
        invariant h == (if i == cap then head else MQ.Wrap(head, i, cap))
        invariant forall j :: 0 <= j < i ==> tmp[j] == buffer[MQ.Wrap(head, j, cap)]
      {
        tmp[i] := buffer[h];
        h := h + 1;
        if h >= cap { h := 0; }
      }
    }
  }

  /** The copy of a ring with one slot to be filled, once it is filled. */
  lemma {:induction false} FullCopy<T>(a: seq<T>, head: nat, t0: nat, value: T, r: seq<T>)
    requires head < |a| && t0 < |a| && head == (if t0 + 1 == |a| then 0 else t0 + 1)
    requires |r| == |a| && forall i :: 0 <= i < |a| ==> r[i] == a[MQ.Wrap(head, i, |a|)]
    ensures var b := a[t0 := value]; r[|r| - 1 := value] == b[head..] + b[..head]
  {
    var b := a[t0 := value];
    var r' := r[|r| - 1 := value];
    forall i | 0 <= i < |r'| ensures r'[i] == b[MQ.Wrap(head, i, |a|)] { }
    MQ.FullRing(b, head, r');
  }

  // ------------------------------------------------------------------- service

  class Package {
    var header_sz: nat
    var header: Byte
    var uncomplete_sz: int       // bytes still missing, or -1
    var size: nat                // size of the packet that is being read
    var msg: Bytes               // what there is of it
    var request: seq<Req>
    var response: seq<Bytes>
    var closed: bool
    var replies: seq<Reply>
    ghost var reqs: seq<Req>
    ghost var pkts: seq<Bytes>
    ghost var stream: Bytes

    /** The bytes of the packet that is being read. */
    ghost function HeldNow(): Bytes
      requires size < 0x10000
      reads this
    {
      if uncomplete_sz >= 0 then [size / 256, size % 256] + msg else if header_sz == 1 then [header] else []
    }

    ghost predicate Shape()
      reads this
    {
      && size < 0x10000 && uncomplete_sz >= -1 && header_sz <= 1
      && (uncomplete_sz >= 0 ==> |msg| + uncomplete_sz == size && header_sz == 0)
    }

    ghost function Abs(): Pkg
      reads this
    {
      Pkg(request, response, closed, reqs, pkts, replies)
    }

    /** All packets of the stream have been queued, the rest is held. */
    ghost predicate Valid()
      reads this
    {
      Shape() && Inv(Abs()) && InStream()
    }

    constructor ()
      ensures Valid() && Abs() == Start && stream == []
    {
      header_sz, header, uncomplete_sz, size, msg := 0, 0, -1, 0, [];
      request, response, closed, replies, reqs, pkts, stream := [], [], false, [], [], [], [];
    }

    /** Bytes for the packet that is being read; it may be completed. */
    method FillBody(rest: Bytes) returns (more: bool, rest': Bytes, ghost ps: seq<Bytes>)
      requires Shape() && uncomplete_sz >= 0
      modifies this`uncomplete_sz, this`msg, this`response
      ensures Shape() && response == old(response) + ps && |rest'| <= |rest|
      ensures more ==> uncomplete_sz < 0 && Frames(old(HeldNow()) + rest) == After(ps, Frames(HeldNow() + rest'))
      ensures !more ==>
        ps == [] && Frames(old(HeldNow()) + rest).packets == [] && HeldNow() == Held(Frames(old(HeldNow()) + rest).rest)
    {
      if |rest| >= uncomplete_sz {
        Completed(size, msg, rest, uncomplete_sz, []);
        msg := msg + rest[..uncomplete_sz];
        rest' := rest[uncomplete_sz..];
        response := response + [msg];
        ps := [msg];
        uncomplete_sz := -1;
        more := true;
        Unprefixed(msg, Frames(old(HeldNow()) + rest), rest');
      } else {
        NotYet(size, msg, rest);
        msg := msg + rest;
        uncomplete_sz := uncomplete_sz - |rest|;
        more, rest', ps := false, [], [];
        assert [size / 256, size % 256] + msg == Held(Body(size, msg));
      }
    }

    /** The two bytes of a size, or the first of them. */
    method ReadHead(rest: Bytes) returns (more: bool, rest': Bytes)
      requires Shape() && uncomplete_sz < 0 && |rest| > 0
      modifies this`header_sz, this`header, this`uncomplete_sz, this`size, this`msg
      ensures Shape() && (more ==> uncomplete_sz >= 0 && |rest'| < |rest| && HeldNow() + rest' == old(HeldNow()) + rest)
      ensures !more ==> uncomplete_sz < 0 && |HeldNow()| <= 1 && HeldNow() == old(HeldNow()) + rest
    {
      if header_sz == 0 {
        if |rest| == 1 {
          header, header_sz := rest[0], 1;
          return false, [];
        }
        size := ReadSize(rest[0], rest[1]);
        rest' := rest[2..];
      } else {
        size := ReadSize(header, rest[0]);
        header_sz := 0;
        rest' := rest[1..];
      }
      msg := [];
      uncomplete_sz := size;
      more := true;
    }

    /** `new_message`: every complete frame goes to the response queue. */
    method NewMessage(data: Bytes) returns (ghost ps: seq<Bytes>)
      requires Shape()
      modifies this`header_sz, this`header, this`uncomplete_sz, this`size, this`msg, this`response
      ensures Shape() && response == old(response) + ps
      ensures ps == Frames(old(HeldNow()) + data).packets && HeldNow() == Held(Frames(old(HeldNow()) + data).rest)
    {
      ghost var all := Frames(HeldNow() + data);
      var rest, more := data, true;
      ps := [];
      assert [] + all.packets == all.packets;
      while true
        invariant Shape() && response == old(response) + ps && all == After(ps, Frames(HeldNow() + rest))
        decreases |rest|, uncomplete_sz < 0
      {
        ghost var qs;
        if uncomplete_sz >= 0 {
          more, rest, qs := FillBody(rest);
          AfterTwice(ps, qs, Frames(HeldNow() + rest));
          Appended(old(response), ps, qs);
          ps := ps + qs;
          if !more { return; }
        }
        if |rest| == 0 { HeldShort(HeldNow()); return; }
        more, rest := ReadHead(rest);
        if !more { HeldShort(HeldNow()); return; }
      }
    }

    /** `response` */
    method RespondAll()
      modifies this`request, this`response, this`replies
      ensures Abs() == Respond(old(Abs()))
    {
      ghost var s0 := Abs();
      while request != [] && response != []
        invariant Respond(Abs()) == Respond(s0)
        decreases |request|
      {
        var req, resp := request[0], response[0];
        request, response := request[1..], response[1..];
        replies := replies + [Answer(req, resp)];
      }
    }

    /** The partial packet and the packets so far are those of the stream. */
    ghost predicate InStream()
      requires size < 0x10000
      reads this
    {
      pkts == Frames(stream).packets && HeldNow() == Held(Frames(stream).rest)
    }

    /** `new_message`, and the history. */
    method TakeFrames(data: Bytes) returns (ghost ps: seq<Bytes>)
      requires Shape() && InStream()
      modifies this`header_sz, this`header, this`uncomplete_sz, this`size, this`msg, this`response, this`pkts,
        this`stream
      ensures Shape() && InStream() && stream == old(stream) + data && ps == Frames(old(HeldNow()) + data).packets
      ensures response == old(response) + ps && pkts == old(pkts) + ps
    {
      FramesCat(stream, data);
      ps := NewMessage(data);
      pkts := pkts + ps;
      stream := stream + data;
    }

    /** Data from the socket. */
    method SocketData(data: Bytes)
      requires Valid()
      modifies this
      ensures Valid() && stream == old(stream) + data
      ensures Abs() == Arrive(old(Abs()), Frames(old(HeldNow()) + data).packets)
      ensures reqs == old(reqs) && pkts == old(pkts) + Frames(old(HeldNow()) + data).packets
    {
      ghost var s0 := Abs();
      ghost var ps := TakeFrames(data);
      ghost var s1 := Abs();
      assert s1 == s0.(responses := s0.responses + ps, pkts := s0.pkts + ps);
      ArriveInv(s0, ps);
      RespondAll();
      RespondPkts(s1);
    }

    /** `command` 'R' */
    method CommandRequest(r: Req)
      requires Valid()
      modifies this
      ensures Valid() && stream == old(stream) && Abs() == Request(old(Abs()), r) && reqs == old(reqs) + [r]
    {
      RequestInv(Abs(), r);
      reqs := reqs + [r];
      if closed {
        replies := replies + [Refused(r)];
      } else if response != [] {
        assert request == [];
        var resp := response[0];
        response := response[1..];
        replies := replies + [Answer(r, resp)];
      } else {
        request := request + [r];
      }
    }

    /** `service_exit` */
    method ServiceExit()
      modifies this`request, this`response, this`replies, this`closed
      ensures Abs() == RefuseAll(old(Abs()).(closed := true)).(responses := [])
    {
      closed := true;
      ghost var s0 := Abs();
      while request != []
        invariant RefuseAll(Abs()) == RefuseAll(s0)
        decreases |request|
      {
        var req := request[0];
        request := request[1..];
        replies := replies + [Refused(req)];
      }
      response := [];
    }

    /** The socket was closed or failed. */
    method SocketClose()
      requires Valid()
      modifies this
      ensures Valid() && closed && stream == old(stream) && Abs() == Exit(old(Abs())) && |replies| == |reqs|
    {
      ExitInv(Abs());
      ExitKeeps(Abs());
      RespondAll();
      ServiceExit();
    }
  }

  lemma {:induction false} RespondPkts(s: Pkg)
    ensures Respond(s).pkts == s.pkts && Respond(s).reqs == s.reqs && Respond(s).closed == s.closed
    decreases |s.requests|
  {
    if s.requests != [] && s.responses != [] {
      RespondPkts(s.(requests := s.requests[1..], responses := s.responses[1..],
                     replies := s.replies + [Answer(s.requests[0], s.responses[0])]));
    }
  }

  lemma {:induction false} ExitKeeps(s: Pkg)
    requires Inv(s)
    ensures Exit(s).pkts == s.pkts && Exit(s).reqs == s.reqs
  {
    RespondInv(s);
    var s1 := Respond(s).(closed := true);
    forall i | 0 <= i < |s1.replies| ensures ReplyOk(s1, i) { assert ReplyOk(Respond(s), i); }
    RefuseAllInv(s1);
  }

  /** Packets already completed, and what is still to come. */
  ghost function After(ps: seq<Bytes>, d: Decoded): Decoded
  {
    Decoded(ps + d.packets, d.rest)
  }

  /** The missing bytes are there. */
  lemma {:induction false} Completed(size: nat, msg: Bytes, rest: Bytes, need: nat, ps: seq<Bytes>)
    requires size < 0x10000 && |msg| + need == size && need <= |rest|
    ensures var m := msg + rest[..need];
      After(ps, Frames([size / 256, size % 256] + msg + rest)) == After(ps + [m], Frames(rest[need..]))
  {
    var m := msg + rest[..need];
    assert [size / 256, size % 256] + msg + rest == [size / 256, size % 256] + m + rest[need..];
    FramesCons(size, m, rest[need..]);
    assert ps + ([m] + Frames(rest[need..]).packets) == ps + [m] + Frames(rest[need..]).packets;
  }

  lemma {:induction false} AfterTwice(ps: seq<Bytes>, qs: seq<Bytes>, d: Decoded)
    ensures After(ps, After(qs, d)) == After(ps + qs, d) && ps + [] == ps
  {
    assert ps + (qs + d.packets) == ps + qs + d.packets;
  }

  lemma {:induction false} Unprefixed(m: Bytes, d: Decoded, rest: Bytes)
    requires After([], d) == After([] + [m], Frames(rest))
    ensures d == After([m], Frames([] + rest))
  {
    assert [] + d.packets == d.packets && [] + [m] == [m] && [] + rest == rest;
  }

  lemma {:induction false} NotYet(size: nat, msg: Bytes, rest: Bytes)
    requires size < 0x10000 && |msg| + |rest| < size
    ensures Frames([size / 256, size % 256] + msg + rest) == Decoded([], Body(size, msg + rest))
  {
    HeldFrames(Body(size, msg + rest));
    assert [size / 256, size % 256] + msg + rest == Held(Body(size, msg + rest));
  }

  lemma {:induction false} HeldShort(h: Bytes)
    requires |h| <= 1
    ensures Frames(h).packets == [] && Held(Frames(h).rest) == h && h + [] == h
  {
  }
}
