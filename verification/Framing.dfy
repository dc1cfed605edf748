/** Frames of two bytes of length, high byte first, and the data: what a stream
    of bytes means, and that cutting it into chunks makes no difference
    (lua-netpack.c, package.c). */
module Framing {
  import opened Common

  type Byte = b: int | 0 <= b < 256

  type Bytes = seq<Byte>

  /** What is left of a stream when no further frame is complete. */
  datatype Partial = Nothing | Half(b: Byte) | Body(size: nat, data: Bytes)

  predicate Fine(p: Partial) { p.Body? ==> p.size < 0x10000 && |p.data| < p.size }

  /** `read_size` */
  function ReadSize(hi: int, lo: int): (n: int)
    requires 0 <= hi < 256 && 0 <= lo < 256
    ensures 0 <= n < 0x10000 && n / 256 == hi && n % 256 == lo
  {
    256 * hi + lo
  }

  /** The bytes a partial frame stands for. */
  function Held(p: Partial): Bytes
    requires Fine(p)
  {
    match p
    case Nothing => []
    case Half(b) => [b]
    case Body(size, data) => [size / 256, size % 256] + data
  }

  datatype Decoded = Decoded(packets: seq<Bytes>, rest: Partial)

  /** The whole-stream decoder. */
  function Frames(s: Bytes): (d: Decoded)
    ensures Fine(d.rest)
    decreases |s|
  {
    if |s| == 0 then Decoded([], Nothing)
    else if |s| == 1 then Decoded([], Half(s[0]))
    else
      var n := ReadSize(s[0], s[1]);
      if |s| - 2 < n then Decoded([], Body(n, s[2..]))
      else
        var d := Frames(s[2 + n..]);
        Decoded([s[2..2 + n]] + d.packets, d.rest)
  }

  lemma {:induction false} HeldFrames(p: Partial)
    requires Fine(p)
    ensures Frames(Held(p)) == Decoded([], p)
  {
    if p.Body? { assert Held(p)[2..] == p.data; }
  }

  /** A frame that is complete at the front. */
  lemma {:induction false} FramesCons(n: nat, data: Bytes, rest: Bytes)
    requires n < 0x10000 && |data| == n
    ensures var d := Frames(rest); Frames([n / 256, n % 256] + data + rest) == Decoded([data] + d.packets, d.rest)
  {
    var s := [n / 256, n % 256] + data + rest;
    assert s[2..2 + n] == data && s[2 + n..] == rest;
  }

  /** Decoding may stop after any byte and go on from what is held. */
  lemma {:induction false} FramesCat(a: Bytes, b: Bytes)
    ensures var d := Frames(a); var e := Frames(Held(d.rest) + b);
      Frames(a + b) == Decoded(d.packets + e.packets, e.rest)
    decreases |a|
  {
    if |a| >= 2 && |a| - 2 >= ReadSize(a[0], a[1]) {
      var n := ReadSize(a[0], a[1]);
      var data, tail := a[2..2 + n], a[2 + n..];
      FramesCat(tail, b);
      SplitFrame(a, n, b);
      FramesCons(n, data, tail);
      FramesCons(n, data, tail + b);
      Regroup(data, Frames(tail).packets, Frames(Held(Frames(tail).rest) + b).packets);
    } else {
      HeldSame(a);
      assert [] + Frames(a + b).packets == Frames(a + b).packets;
    }
  }

  lemma {:induction false} SplitFrame(a: Bytes, n: nat, b: Bytes)
    requires |a| >= 2 && n == ReadSize(a[0], a[1]) && n <= |a| - 2
    ensures a == [n / 256, n % 256] + a[2..2 + n] + a[2 + n..]
    ensures a + b == [n / 256, n % 256] + a[2..2 + n] + (a[2 + n..] + b)
  {
  }

  lemma {:induction false} Regroup(x: Bytes, ps: seq<Bytes>, qs: seq<Bytes>)
    ensures [x] + (ps + qs) == [x] + ps + qs
  {
  }

  /** A stream without a complete frame is held as it is. */
  lemma {:induction false} HeldSame(a: Bytes)
    requires |a| < 2 || |a| - 2 < ReadSize(a[0], a[1])
    ensures Held(Frames(a).rest) == a && Frames(a).packets == []
  {
    if |a| >= 2 {
      assert a == [a[0], a[1]] + a[2..];
    }
  }

  // ------------------------------------------------------------------ encoding

  /** `lpack`, and `send_out` of package.c */
  function Pack(p: Bytes): Result<Bytes>
  {
    if |p| >= 0x10000 then Error else Ok([|p| / 256, |p| % 256] + p)
  }

  function PackAll(ps: seq<Bytes>): Bytes
    requires forall p :: p in ps ==> |p| < 0x10000
  {
    if ps == [] then [] else Pack(ps[0]).v + PackAll(ps[1..])
  }

  /** Decoding what was packed gives the messages back. */
  lemma {:induction false} PackRoundTrip(ps: seq<Bytes>)
    requires forall p :: p in ps ==> |p| < 0x10000
    ensures Frames(PackAll(ps)) == Decoded(ps, Nothing)
    decreases |ps|
  {
    if ps != [] {
      PackRoundTrip(ps[1..]);
      FramesCons(|ps[0]|, ps[0], PackAll(ps[1..]));
      assert ps == [ps[0]] + ps[1..];
    }
  }

  // ------------------------------------------------------------------ chunking

  function Flat(chunks: seq<Bytes>): Bytes
  {
    if chunks == [] then [] else Flat(chunks[..|chunks| - 1]) + chunks[|chunks| - 1]
  }

  /** What a decoder that keeps the partial frame emits for a list of chunks. */
  function Feed(chunks: seq<Bytes>): (d: Decoded)
    ensures Fine(d.rest)
  {
    if chunks == [] then Decoded([], Nothing)
    else
      var d := Feed(chunks[..|chunks| - 1]);
      var e := Frames(Held(d.rest) + chunks[|chunks| - 1]);
      Decoded(d.packets + e.packets, e.rest)
  }

  /** However a stream is cut into chunks, the same packets come out. */
  lemma {:induction false} ChunkingFree(chunks: seq<Bytes>)
    ensures Feed(chunks) == Frames(Flat(chunks))
    decreases |chunks|
  {
    if chunks != [] {
      var front, last := chunks[..|chunks| - 1], chunks[|chunks| - 1];
      ChunkingFree(front);
      FramesCat(Flat(front), last);
    }
  }
}
