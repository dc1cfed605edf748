/** The packet filter of lua-netpack.c: partial packets of many connections in
    hash chains, complete ones handed out in order. */
module Netpack {
  import opened Common
  import opened Framing
  import MQ = MessageQueue

  const HASHSIZE: nat := 4096

  datatype Emit = Emit(fd: int, data: Bytes)

  /** Partial packets by connection, and everything handed out. */
  datatype Net = Net(parts: map<int, Partial>, log: seq<Emit>)

  function Get(parts: map<int, Partial>, fd: int): Partial
  {
    if fd in parts then parts[fd] else Nothing
  }

  function Set(parts: map<int, Partial>, fd: int, p: Partial): map<int, Partial>
  {
    if p.Nothing? then parts - {fd} else parts[fd := p]
  }

  function Tag(fd: int, ps: seq<Bytes>): (r: seq<Emit>)
    ensures |r| == |ps|
  {
    if ps == [] then [] else [Emit(fd, ps[0])] + Tag(fd, ps[1..])
  }

  ghost predicate FineAll(parts: map<int, Partial>)
  {
    forall fd :: fd in parts ==> Fine(parts[fd]) && parts[fd] != Nothing
  }

  /** A chunk of data arrives on connection `fd`. */
  function Receive(net: Net, fd: int, chunk: Bytes): Net
    requires FineAll(net.parts)
  {
    var d := Frames(Held(Get(net.parts, fd)) + chunk);
    Net(Set(net.parts, fd, d.rest), net.log + Tag(fd, d.packets))
  }

  // ---------------------------------------------------------- interleavings

  datatype Event = Data(fd: int, chunk: Bytes) | Close(fd: int)

  function Apply(net: Net, ev: Event): Net
    requires FineAll(net.parts)
  {
    match ev
    case Data(fd, chunk) => Receive(net, fd, chunk)
    case Close(fd) => net.(parts := net.parts - {fd})
  }

  lemma ApplyFine(net: Net, ev: Event)
    requires FineAll(net.parts)
    ensures FineAll(Apply(net, ev).parts)
  {
  }

  function Run(events: seq<Event>): (net: Net)
    ensures FineAll(net.parts)
    decreases |events|
  {
    if events == [] then Net(map[], [])
    else
      var net := Run(events[..|events| - 1]);
      ApplyFine(net, events[|events| - 1]);
      Apply(net, events[|events| - 1])
  }

  /** The chunks of one connection since it was last closed. */
  function Chunks(events: seq<Event>, fd: int): seq<Bytes>
    decreases |events|
  {
    if events == [] then []
    else
      var front, last := events[..|events| - 1], events[|events| - 1];
      if last == Close(fd) then [] else Chunks(front, fd) + if last.Data? && last.fd == fd then [last.chunk] else []
  }

  /** The packets of the connections with this number that have been closed. */
  function Past(events: seq<Event>, fd: int): seq<Bytes>
    decreases |events|
  {
    if events == [] then []
    else
      var front, last := events[..|events| - 1], events[|events| - 1];
      Past(front, fd) + if last == Close(fd) then Frames(Flat(Chunks(front, fd))).packets else []
  }

  /** The packets of one connection. */
  function Of(log: seq<Emit>, fd: int): seq<Bytes>
  {
    if log == [] then [] else (if log[0].fd == fd then [log[0].data] else []) + Of(log[1..], fd)
  }

  lemma {:induction false} OfCat(a: seq<Emit>, b: seq<Emit>, fd: int)
    ensures Of(a + b, fd) == Of(a, fd) + Of(b, fd)
    decreases |a|
  {
    if a == [] { assert a + b == b; }
    else {
      assert (a + b)[1..] == a[1..] + b;
      OfCat(a[1..], b, fd);
    }
  }

  lemma {:induction false} OfTag(fd: int, ps: seq<Bytes>, fd': int)
    ensures Of(Tag(fd, ps), fd') == if fd == fd' then ps else []
    decreases |ps|
  {
    if ps != [] {
      assert Tag(fd, ps)[1..] == Tag(fd, ps[1..]);
      OfTag(fd, ps[1..], fd');
      assert ps == [ps[0]] + ps[1..];
    }
  }

  /** However connections interleave and streams are cut, the packets of a
      connection are those of its whole stream, from its start to its close; what
      a closed connection has left over reaches no later one. */
  lemma {:induction false} StreamsKept(events: seq<Event>, fd: int)
    ensures Kept(Run(events), fd, Past(events, fd), Flat(Chunks(events, fd)))
    decreases |events|
  {
    if events != [] {
      var front, last := events[..|events| - 1], events[|events| - 1];
      StreamsKept(front, fd);
      var net, past, stream := Run(front), Past(front, fd), Flat(Chunks(front, fd));
      if last == Close(fd) {
        CloseKept(net, past, stream, fd);
      } else if last.Data? && last.fd == fd {
        FlatSnoc(Chunks(front, fd), last.chunk);
        ChunkKept(net, past, stream, fd, last.chunk);
      } else if last.Data? {
        OtherKept(net, past, stream, last.fd, last.chunk, fd);
      }
      if last != Close(fd) { assert Past(events, fd) == past + [] == past; }
      if last != Close(fd) && !(last.Data? && last.fd == fd) {
        assert Chunks(events, fd) == Chunks(front, fd) + [] == Chunks(front, fd);
      }
    }
  }

  /** The packets of connection `fd` are `past` and those of `stream`, whose rest
      is held. */
  ghost predicate Kept(net: Net, fd: int, past: seq<Bytes>, stream: Bytes)
  {
    Of(net.log, fd) == past + Frames(stream).packets && Get(net.parts, fd) == Frames(stream).rest
  }

  lemma {:induction false} CloseKept(net: Net, past: seq<Bytes>, stream: Bytes, fd: int)
    requires FineAll(net.parts) && Kept(net, fd, past, stream)
    ensures Kept(Apply(net, Close(fd)), fd, past + Frames(stream).packets, Flat([]))
  {
    assert Frames(Flat([])) == Decoded([], Nothing);
  }

  /** A chunk of the connection continues its stream. */
  lemma {:induction false} ChunkKept(net: Net, past: seq<Bytes>, stream: Bytes, fd: int, chunk: Bytes)
    requires FineAll(net.parts) && Kept(net, fd, past, stream)
    ensures Kept(Receive(net, fd, chunk), fd, past, stream + chunk)
  {
    ReceiveOf(net, fd, chunk, fd);
    FramesCat(stream, chunk);
    CatAssoc(past, Frames(stream).packets, Frames(Held(Frames(stream).rest) + chunk).packets);
  }

  lemma CatAssoc(a: seq<Bytes>, b: seq<Bytes>, c: seq<Bytes>)
    ensures a + b + c == a + (b + c)
  {
  }

  lemma {:induction false} OtherKept(net: Net, past: seq<Bytes>, stream: Bytes, fd: int, chunk: Bytes, fd': int)
    requires FineAll(net.parts) && Kept(net, fd', past, stream) && fd != fd'
    ensures Kept(Receive(net, fd, chunk), fd', past, stream)
  {
    ReceiveOf(net, fd, chunk, fd');
    CatAssoc(past, Frames(stream).packets, []);
    assert past + (Frames(stream).packets + []) == past + Frames(stream).packets;
  }

  /** A chunk adds its packets to its own connection only. */
  lemma {:induction false} ReceiveOf(net: Net, fd: int, chunk: Bytes, fd': int)
    requires FineAll(net.parts)
    ensures var d := Frames(Held(Get(net.parts, fd)) + chunk);
      Of(Receive(net, fd, chunk).log, fd') == Of(net.log, fd') + (if fd == fd' then d.packets else [])
    ensures Get(Receive(net, fd, chunk).parts, fd) == Frames(Held(Get(net.parts, fd)) + chunk).rest
    ensures fd != fd' ==> Get(Receive(net, fd, chunk).parts, fd') == Get(net.parts, fd')
  {
    var d := Frames(Held(Get(net.parts, fd)) + chunk);
    OfCat(net.log, Tag(fd, d.packets), fd');
    OfTag(fd, d.packets, fd');
  }

  lemma {:induction false} FlatSnoc(cs: seq<Bytes>, c: Bytes)
    ensures Flat(cs + [c]) == Flat(cs) + c
  {
    assert (cs + [c])[..|cs|] == cs;
  }

  // ------------------------------------------------------------------- in place

  /** `struct uncomplete` */
  datatype Record = Record(id: int, part: Partial)

  function HashFd(fd: int): (h: nat)
    ensures h < HASHSIZE
  {
    (fd / 0x100_0000 + fd / 0x1000 + fd) % HASHSIZE
  }

  /** What a call of the filter hands to Lua. */
  datatype Output = Nil | One(fd: int, data: Bytes) | More

  ghost predicate InBucket(b: seq<Record>, fd: int, p: Partial)
  {
    exists i :: 0 <= i < |b| && b[i] == Record(fd, p)
  }

  /** A record is in the chain of its connection, the only one for it. */
  ghost predicate RecordOk(parts: map<int, Partial>, h: int, b: seq<Record>, i: int)
    requires 0 <= i < |b|
  {
    && HashFd(b[i].id) == h && b[i].id in parts && parts[b[i].id] == b[i].part
    && forall j :: 0 <= j < i ==> b[j].id != b[i].id
  }

  class Queue {
    const hash: array<seq<Record>>
    var queue: seq<Emit>
    ghost var parts: map<int, Partial>
    ghost var log: seq<Emit>

    ghost predicate Bucketed()
      reads this`parts, hash
    {
      && hash.Length == HASHSIZE
      && (forall h, i :: 0 <= h < HASHSIZE && 0 <= i < |hash[h]| ==> RecordOk(parts, h, hash[h], i))
      && (forall fd :: fd in parts ==> InBucket(hash[HashFd(fd)], fd, parts[fd]))
    }

    ghost predicate Valid()
      reads this`parts, hash
    {
      Bucketed() && FineAll(parts)
    }

    ghost function Abs(): Net
      reads this
    {
      Net(parts, log)
    }

    constructor ()
      ensures Valid() && parts == map[] && log == [] && queue == [] && fresh(hash)
    {
      hash := new seq<Record>[HASHSIZE](_ => []);
      queue, parts, log := [], map[], [];
    }

    /** `find_uncomplete`: takes the record of a connection out of its chain. */
    method FindUncomplete(fd: int) returns (uc: Opt<Partial>)
      requires Valid()
      modifies this, hash
      ensures Valid() && queue == old(queue) && log == old(log) && parts == old(parts) - {fd}
      ensures uc == if fd in old(parts) then Some(old(parts)[fd]) else None
    {
      var h := HashFd(fd);
      var b := hash[h];
      var i := 0;
      while i < |b| && b[i].id != fd
        invariant 0 <= i <= |b| && forall j :: 0 <= j < i ==> b[j].id != fd
      {
        i := i + 1;
      }
      if i == |b| {
        uc := None;
        assert fd !in parts;
        assert parts == parts - {fd};
        return;
      }
      assert RecordOk(parts, h, b, i);
      uc := Some(b[i].part);
      Unlink(h, fd, i);
    }

    method Unlink(h: nat, fd: int, i: nat)
      requires Valid() && h == HashFd(fd) && i < |hash[h]| && hash[h][i].id == fd
      modifies this, hash
      ensures Valid() && queue == old(queue) && log == old(log) && parts == old(parts) - {fd}
    {
      ghost var b := hash[h];
      ghost var parts0 := parts;
      assert RecordOk(parts, h, b, i);
      hash[h] := hash[h][..i] + hash[h][i + 1..];
      parts := parts - {fd};
      ghost var b' := hash[h];
      forall k, j | 0 <= k < HASHSIZE && 0 <= j < |hash[k]| ensures RecordOk(parts, k, hash[k], j) {
        if k == h {
          var j0 := if j < i then j else j + 1;
          assert b'[j] == b[j0] && RecordOk(parts0, h, b, j0);
          forall l | 0 <= l < j ensures b'[l].id != b'[j].id { assert b'[l] == b[if l < i then l else l + 1]; }
        } else {
          assert RecordOk(parts0, k, old(hash[k]), j);
        }
      }
      forall x | x in parts ensures InBucket(hash[HashFd(x)], x, parts[x]) {
        assert old(InBucket(hash[HashFd(x)], x, parts[x]));
        if HashFd(x) == h {
          var j :| 0 <= j < |b| && b[j] == Record(x, parts0[x]);
          assert b'[if j < i then j else j - 1] == b[j];
        }
      }
    }

    /** `save_uncomplete`: a record in front of its chain. */
    method SaveUncomplete(fd: int, p: Partial)
      requires Valid() && fd !in parts && Fine(p) && p != Nothing
      modifies this, hash
      ensures Valid() && queue == old(queue) && log == old(log) && parts == old(parts)[fd := p]
    {
      var h := HashFd(fd);
      ghost var b := hash[h];
      ghost var parts0 := parts;
      hash[h] := [Record(fd, p)] + hash[h];
      parts := parts[fd := p];
      forall k, j | 0 <= k < HASHSIZE && 0 <= j < |hash[k]| ensures RecordOk(parts, k, hash[k], j) {
        if k == h {
          if j > 0 {
            assert hash[k][j] == b[j - 1] && RecordOk(parts0, h, b, j - 1);
            forall l | 0 <= l < j ensures hash[k][l].id != hash[k][j].id { if l > 0 { assert hash[k][l] == b[l - 1]; } }
          }
        } else {
          assert RecordOk(parts0, k, old(hash[k]), j);
        }
      }
      forall x | x in parts ensures InBucket(hash[HashFd(x)], x, parts[x]) {
        if x == fd { assert hash[h][0] == Record(fd, p); }
        else {
          assert old(InBucket(hash[HashFd(x)], x, parts[x]));
          if HashFd(x) == h {
            var j :| 0 <= j < |b| && b[j] == Record(x, parts[x]);
            assert hash[h][j + 1] == b[j];
          }
        }
      }
    }

    /** `push_data` */
    method PushData(fd: int, data: Bytes)
      requires Valid()
      modifies this
      ensures Valid() && parts == old(parts) && log == old(log) + [Emit(fd, data)] &&
        queue == old(queue) + [Emit(fd, data)]
    {
      queue := queue + [Emit(fd, data)];
      log := log + [Emit(fd, data)];
    }

    /** What decoding `s` for `fd` has done since the state `net`, `q`. */
    ghost predicate Decodes(net: Net, q: seq<Emit>, fd: int, s: Bytes)
      reads this
    {
      var d := Frames(s);
      parts == Set(net.parts, fd, d.rest) && log == net.log + Tag(fd, d.packets) && queue == q + Tag(fd, d.packets)
    }

    /** `push_more` */
    method PushMore(fd: int, buffer: Bytes)
      requires Valid() && fd !in parts && |buffer| > 0
      modifies this, hash
      ensures Valid() && Decodes(old(Abs()), old(queue), fd, buffer)
      decreases |buffer|, 0
    {
      if |buffer| == 1 {
        SaveUncomplete(fd, Half(buffer[0]));
        return;
      }
      var pack_size := ReadSize(buffer[0], buffer[1]);
      var data := buffer[2..];
      if |data| < pack_size {
        SaveUncomplete(fd, Body(pack_size, data));
        return;
      }
      var packet, rest := data[..pack_size], data[pack_size..];
      OneMore(fd, buffer, pack_size);
      ghost var t := Tag(fd, Frames(rest).packets);
      EmitCons(log, Emit(fd, packet), t);
      EmitCons(queue, Emit(fd, packet), t);
      PushData(fd, packet);
      PushRest(fd, rest);
    }

    method PushRest(fd: int, rest: Bytes)
      requires Valid() && fd !in parts
      modifies this, hash
      ensures Valid() && Decodes(old(Abs()), old(queue), fd, rest)
      decreases |rest|, 1
    {
      if |rest| > 0 {
        PushMore(fd, rest);
      } else {
        assert parts == parts - {fd};
      }
    }

    /** `close_uncomplete` */
    method CloseUncomplete(fd: int)
      requires Valid()
      modifies this, hash
      ensures Valid() && Abs() == Apply(old(Abs()), Close(fd))
    {
      var _ := FindUncomplete(fd);
    }

    /** `filter_data_` with a partial packet of the connection at hand. */
    method FillUncomplete(fd: int, uc: Partial, chunk: Bytes) returns (out: Output)
      requires Valid() && fd !in parts && Fine(uc) && uc != Nothing && |chunk| > 0
      modifies this, hash
      ensures Valid() && Handed(old(Abs()), old(queue), fd, Held(uc) + chunk, out)
    {
      var (size, data, buffer) := ReadHeader(uc, chunk);
      var need := size - |data|;
      FillCases(size, data, buffer);
      if |buffer| < need {
        SaveUncomplete(fd, Body(size, data + buffer));
        out := Nil;
      } else {
        out := HandOut(fd, data + buffer[..need], buffer[need..]);
      }
    }

    /** A packet is complete: it is handed out if it is the last of the chunk. */
    method HandOut(fd: int, packet: Bytes, buffer: Bytes) returns (out: Output)
      requires Valid() && fd !in parts && |packet| < 0x10000
      modifies this, hash
      ensures Valid() && Handed(old(Abs()), old(queue), fd, [|packet| / 256, |packet| % 256] + packet + buffer, out)
    {
      FramesCons(|packet|, packet, buffer);
      TagCons(fd, packet, Frames(buffer).packets);
      if |buffer| == 0 {
        log := log + [Emit(fd, packet)];
        assert parts == parts - {fd};
        out := One(fd, packet);
      } else {
        ghost var t := Tag(fd, Frames(buffer).packets);
        EmitCons(log, Emit(fd, packet), t);
        EmitCons(queue, Emit(fd, packet), t);
        PushData(fd, packet);
        PushMore(fd, buffer);
        out := More;
      }
    }

    /** The chunk has been decoded; one packet is handed out directly, more go
        to the queue. */
    ghost predicate Handed(net: Net, q: seq<Emit>, fd: int, s: Bytes, out: Output)
      reads this
    {
      var d := Frames(s);
      && parts == Set(net.parts, fd, d.rest) && log == net.log + Tag(fd, d.packets)
      && match out
         case Nil => d.packets == [] && queue == q
         case One(f, p) => f == fd && d.packets == [p] && d.rest == Nothing && queue == q
         case More => queue == q + Tag(fd, d.packets)
    }

    /** `filter_data_` */
    method FilterData(fd: int, chunk: Bytes) returns (out: Output)
      requires Valid() && |chunk| > 0
      modifies this, hash
      ensures Valid() && Abs() == Receive(old(Abs()), fd, chunk)
      ensures Handed(old(Abs()), old(queue), fd, Held(Get(old(parts), fd)) + chunk, out)
    {
      var uc := FindUncomplete(fd);
      SetTwice(old(parts), fd, Frames(Held(Get(old(parts), fd)) + chunk).rest);
      if uc.Some? {
        out := FillUncomplete(fd, uc.v, chunk);
      } else {
        assert Held(Nothing) + chunk == chunk;
        out := FilterFresh(fd, chunk);
      }
    }

    /** `filter_data_` when the connection has no partial packet. */
    method FilterFresh(fd: int, chunk: Bytes) returns (out: Output)
      requires Valid() && fd !in parts && |chunk| > 0
      modifies this, hash
      ensures Valid() && Handed(old(Abs()), old(queue), fd, chunk, out)
    {
      if |chunk| == 1 {
        SaveUncomplete(fd, Half(chunk[0]));
        return Nil;
      }
      var pack_size := ReadSize(chunk[0], chunk[1]);
      var buffer := chunk[2..];
      if |buffer| < pack_size {
        SaveUncomplete(fd, Body(pack_size, buffer));
        return Nil;
      }
      var packet := buffer[..pack_size];
      assert chunk == [pack_size / 256, pack_size % 256] + packet + buffer[pack_size..];
      out := HandOut(fd, packet, buffer[pack_size..]);
    }
  }

  lemma SetTwice(parts: map<int, Partial>, fd: int, p: Partial)
    ensures Set(parts - {fd}, fd, p) == Set(parts, fd, p)
  {
  }

  /** The first packet of a stream, and the rest. */
  lemma {:induction false} OneMore(fd: int, s: Bytes, n: nat)
    requires |s| >= 2 && n == ReadSize(s[0], s[1]) && n <= |s| - 2
    ensures var d := Frames(s[2..][n..]);
      Frames(s) == Decoded([s[2..][..n]] + d.packets, d.rest) &&
      Tag(fd, Frames(s).packets) == [Emit(fd, s[2..][..n])] + Tag(fd, d.packets)
  {
    assert s[2..][..n] == s[2..2 + n] && s[2..][n..] == s[2 + n..];
    TagCons(fd, s[2..2 + n], Frames(s[2 + n..]).packets);
  }

  lemma {:induction false} EmitCons(log: seq<Emit>, e: Emit, t: seq<Emit>)
    ensures log + [e] + t == log + ([e] + t)
  {
  }

  lemma {:induction false} TagCons(fd: int, p: Bytes, ps: seq<Bytes>)
    ensures Tag(fd, [p] + ps) == [Emit(fd, p)] + Tag(fd, ps)
  {
    assert ([p] + ps)[1..] == ps;
  }

  /** The size of the partial packet, what there is of it, and what is left of
      the chunk after the second byte of the size. */
  function ReadHeader(uc: Partial, chunk: Bytes): (r: (nat, Bytes, Bytes))
    requires Fine(uc) && uc != Nothing && |chunk| > 0
    ensures r.0 < 0x10000 && |r.1| <= r.0 && Held(uc) + chunk == [r.0 / 256, r.0 % 256] + r.1 + r.2
  {
    match uc
    case Half(b) => (ReadSize(b, chunk[0]), [], chunk[1..])
    case Body(n, d) => (n, d, chunk)
  }

  /** Either the packet is still partial or it is completed. */
  lemma {:induction false} FillCases(size: nat, data: Bytes, buffer: Bytes)
    requires size < 0x10000 && |data| <= size
    ensures var s := [size / 256, size % 256] + data + buffer; var need := size - |data|;
      if |buffer| < need then Frames(s) == Decoded([], Body(size, data + buffer))
      else s == [size / 256, size % 256] + (data + buffer[..need]) + buffer[need..]
  {
    var s := [size / 256, size % 256] + data + buffer;
    var need := size - |data|;
    if |buffer| < need {
      HeldFrames(Body(size, data + buffer));
      assert s == Held(Body(size, data + buffer));
    } else {
      assert buffer == buffer[..need] + buffer[need..];
    }
  }

  // --------------------------------------------------------------- the packet ring

  const QUEUESIZE: nat := 1024

  /** The ring of complete packets, which grows by a fixed number of slots. */
  class PacketRing<T(0)> {
    var slots: array<T>
    var head: nat
    var tail: nat

    ghost predicate Valid()
      reads this
    {
      head < slots.Length && tail < slots.Length
    }

    ghost function Contents(): seq<T>
      requires Valid()
      reads this, slots
    {
      MQ.Ring(slots[..], head, tail)
    }

    /** `get_queue`, the first time. */
    constructor ()
      ensures Valid() && Contents() == [] && fresh(slots)
    {
      slots := new T[QUEUESIZE];
      head, tail := 0, 0;
    }

    /** `push_data`: the packets wait in the order in which they were pushed. */
    method Push(packet: T)
      requires Valid()
      modifies this, slots
      ensures Valid() && (slots == old(slots) || fresh(slots)) && Contents() == old(Contents()) + [packet]
    {
      ghost var a, t0 := slots[..], tail;
      slots[tail] := packet;
      tail := tail + 1;
      if tail >= slots.Length { tail := tail - slots.Length; }
      MQ.PushRing(a, head, t0, packet, tail);
      assert slots[..] == a[t0 := packet];
      if head == tail { ExpandQueue(); }
    }

    /** `expand_queue`, of a ring whose slots are all in use. */
    method ExpandQueue()
      requires Valid() && head == tail
      modifies this
      ensures Valid() && fresh(slots) && slots.Length == old(slots.Length) + QUEUESIZE
      ensures Contents() == old(slots[head..] + slots[..head])
    {
      var cap := slots.Length;
      var next := Unroll(cap);
      MQ.FullRing(slots[..], head, next[..cap]);
      head, tail, slots := 0, cap, next;
      assert MQ.Ring(slots[..], 0, cap) == slots[..cap];
    }

    /** The packets from the head on, in a longer array. */
    method Unroll(cap: nat) returns (next: array<T>)
      requires Valid() && cap == slots.Length
      ensures fresh(next) && next.Length == cap + QUEUESIZE
      ensures forall i :: 0 <= i < cap ==> next[i] == slots[MQ.Wrap(head, i, cap)]
    {
      next := new T[cap + QUEUESIZE];
      for i := 0 to cap
        invariant forall j :: 0 <= j < i ==> next[j] == slots[MQ.Wrap(head, j, cap)]
      {
        MQ.WrapMod(head, i, cap);
        next[i] := slots[(head + i) % cap];
      }
    }

    /** `lpop` takes the oldest packet. */
    method Pop() returns (ok: bool, packet: T)
      requires Valid()
      modifies this
      ensures Valid() && slots == old(slots) && ok == (old(Contents()) != [])
      ensures if ok then old(Contents()) == [packet] + Contents() else Contents() == []
    {
      packet := *;
      if head == tail { return false, packet; }
      MQ.PopRing(slots[..], head, tail);
      packet := slots[head];
      head := head + 1;
      if head >= slots.Length { head := 0; }
      ok := true;
    }
  }
}
