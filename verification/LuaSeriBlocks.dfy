/** The serializer of lua-seri.c in place: a chain of 128-byte blocks that is
    written piece by piece and flattened at the end, and a cursor that reads. */
module LuaSeriBlocks {
  import opened Common
  import opened LuaSeri

  const BLOCK_SIZE: nat := 128

  function Flat(bs: seq<Bytes>): Bytes
  {
    if bs == [] then [] else bs[0] + Flat(bs[1..])
  }

  lemma {:induction false} FlatSnoc(bs: seq<Bytes>, b: Bytes)
    ensures Flat(bs + [b]) == Flat(bs) + b
    decreases |bs|
  {
    if bs == [] { assert bs + [b] == [b] && Flat([b][1..]) == []; }
    else {
      assert (bs + [b])[1..] == bs[1..] + [b];
      FlatSnoc(bs[1..], b);
    }
  }

  lemma {:induction false} Slices(x: Bytes, b: Bytes, i: nat, j: nat)
    requires i <= j <= |b|
    ensures x + b[..i] + b[i..j] == x + b[..j] && b[..|b|] == b && b[i..|b|] == b[i..]
  {
    assert b[..i] + b[i..j] == b[..j];
  }

  /** `struct write_block`: full blocks, and the current one. */
  class WriteBlock {
    var blocks: seq<Bytes>
    var current: Bytes
    var len: nat
    var ptr: nat

    ghost predicate Valid()
      reads this
    {
      && (forall b :: b in blocks ==> |b| == BLOCK_SIZE)
      && |current| == BLOCK_SIZE && ptr <= BLOCK_SIZE && len == BLOCK_SIZE * |blocks| + ptr
    }

    ghost function Contents(): Bytes
      requires Valid()
      reads this
    {
      Flat(blocks) + current[..ptr]
    }

    /** `wb_init`; the block is not cleared. */
    constructor (b: Bytes)
      requires |b| == BLOCK_SIZE
      ensures Valid() && Contents() == []
    {
      blocks, current, len, ptr := [], b, 0, 0;
    }

    /** `memcpy` into the current block. */
    method Copy(buf: Bytes)
      requires Valid() && ptr + |buf| <= BLOCK_SIZE
      modifies this
      ensures Valid() && Contents() == old(Contents()) + buf && ptr == old(ptr) + |buf|
    {
      current := current[..ptr] + buf + current[ptr + |buf|..];
      ptr := ptr + |buf|;
      len := len + |buf|;
      assert current[..ptr] == old(current)[..old(ptr)] + buf;
    }

    /** A new block when the current one is full. */
    method NextBlock(next: Bytes)
      requires Valid() && ptr == BLOCK_SIZE && |next| == BLOCK_SIZE
      modifies this
      ensures Valid() && Contents() == old(Contents()) && ptr == 0
    {
      assert current[..ptr] == current;
      FlatSnoc(blocks, current);
      blocks := blocks + [current];
      current := next;
      ptr := 0;
      assert current[..ptr] == [];
    }

    /** `wb_push` */
    method Push(buf: Bytes)
      requires Valid()
      modifies this
      ensures Valid() && Contents() == old(Contents()) + buf
    {
      if ptr == BLOCK_SIZE { NextBlock(seq(BLOCK_SIZE, _ => 0)); }
      ghost var before := Contents();
      var k := 0;
      while ptr > BLOCK_SIZE - (|buf| - k)
        invariant Valid() && 0 <= k <= |buf| && ptr < BLOCK_SIZE && Contents() == before + buf[..k]
        decreases |buf| - k
      {
        var copy := BLOCK_SIZE - ptr;
        Copy(buf[k..k + copy]);
        Slices(before, buf, k, k + copy);
        NextBlock(seq(BLOCK_SIZE, _ => 0));
        k := k + copy;
      }
      Copy(buf[k..]);
      Slices(before, buf, k, |buf|);
    }

    /** `seri`: the chain as one buffer. */
    method Seri() returns (buffer: Bytes)
      requires Valid()
      ensures buffer == Contents()
    {
      var left := len;
      var i := 0;
      buffer := [];
      while left > 0
        invariant 0 <= i <= |blocks| && left == len - BLOCK_SIZE * i && buffer == Flat(blocks[..i])
        decreases left
      {
        if left >= BLOCK_SIZE && i < |blocks| {
          FlatSnoc(blocks[..i], blocks[i]);
          assert blocks[..i + 1] == blocks[..i] + [blocks[i]];
          buffer := buffer + blocks[i];
          left := left - BLOCK_SIZE;
          i := i + 1;
        } else {
          assert i == |blocks| && blocks[..i] == blocks;
          buffer := buffer + current[..left];
          return;
        }
      }
      assert i == |blocks| && blocks[..i] == blocks && ptr == 0;
    }
  }

  // -------------------------------------------------------------------- packing

  lemma {:induction false} Assoc(x: Bytes, a: Bytes, b: Bytes)
    ensures x + a + b == x + (a + b)
  {
  }

  lemma {:induction false} ThenLaws(a: Result<Bytes>, b: Result<Bytes>, c: Result<Bytes>)
    ensures Then(Then(a, b), c) == Then(a, Then(b, c)) && Then(Ok([]), a) == a
  {
    if a.Ok? && b.Ok? && c.Ok? { Assoc(a.v, b.v, c.v); }
    if a.Ok? { assert [] + a.v == a.v; }
  }

  /** `wb_integer` */
  method WriteInt(wb: WriteBlock, v: int)
    requires wb.Valid() && -P63 <= v < P63
    modifies wb
    ensures wb.Valid() && wb.Contents() == old(wb.Contents()) + PackInt(v)
  {
    if v == 0 {
      wb.Push([Combine(TYPE_NUMBER, TYPE_NUMBER_ZERO)]);
    } else if !(-P31 <= v < P31) {
      WriteTagged(wb, Combine(TYPE_NUMBER, TYPE_NUMBER_QWORD), Le(Unsigned(v, P64), 8));
    } else if v < 0 {
      WriteTagged(wb, Combine(TYPE_NUMBER, TYPE_NUMBER_DWORD), Le(Unsigned(v, P32), 4));
    } else if v < 0x100 {
      WriteTagged(wb, Combine(TYPE_NUMBER, TYPE_NUMBER_BYTE), Le(v, 1));
    } else if v < 0x10000 {
      WriteTagged(wb, Combine(TYPE_NUMBER, TYPE_NUMBER_WORD), Le(v, 2));
    } else {
      WriteTagged(wb, Combine(TYPE_NUMBER, TYPE_NUMBER_DWORD), Le(v, 4));
    }
  }

  method WriteTagged(wb: WriteBlock, n: Byte, x: Bytes)
    requires wb.Valid()
    modifies wb
    ensures wb.Valid() && wb.Contents() == old(wb.Contents()) + ([n] + x)
  {
    wb.Push([n]);
    wb.Push(x);
    Assoc(old(wb.Contents()), [n], x);
  }

  /** `wb_string` */
  method WriteStr(wb: WriteBlock, s: Bytes)
    requires wb.Valid() && |s| < P31
    modifies wb
    ensures wb.Valid() && wb.Contents() == old(wb.Contents()) + PackStr(s)
  {
    if |s| < MAX_COOKIE {
      WriteTagged(wb, Combine(TYPE_SHORT_STRING, |s|), s);
    } else {
      var k := if |s| < 0x10000 then 2 else 4;
      WriteTagged(wb, Combine(TYPE_LONG_STRING, k), Le(|s|, k));
      wb.Push(s);
      Assoc(old(wb.Contents()), [Combine(TYPE_LONG_STRING, k)] + Le(|s|, k), s);
    }
  }

  /** `pack_one`; `false` stands for the error it raises. */
  method PackOne(wb: WriteBlock, v: Value, depth: nat) returns (ok: bool)
    requires wb.Valid() && Wf(v)
    modifies wb
    ensures wb.Valid() && ok == Pack(v, depth).Ok?
    ensures ok ==> wb.Contents() == old(wb.Contents()) + Pack(v, depth).v
    decreases v, 2
  {
    if depth > MAX_DEPTH { return false; }
    match v {
      case Nil => wb.Push([TYPE_NIL]);
      case Bool(b) => wb.Push([Combine(TYPE_BOOLEAN, if b then 1 else 0)]);
      case Int(i) => WriteInt(wb, i);
      case Real(bits) => WriteTagged(wb, Combine(TYPE_NUMBER, TYPE_NUMBER_REAL), bits);
      case Pointer(bits) => WriteTagged(wb, TYPE_USERDATA, bits);
      case Str(s) => WriteStr(wb, s);
      case Table(arr, hash) => ok := WriteTable(wb, v, arr, hash, depth); return;
      case Unsupported => return false;
    }
    return true;
  }

  /** `wb_table_array` and `wb_table_hash` */
  method WriteTable(wb: WriteBlock, ghost v: Value, arr: seq<Value>, hash: seq<Pair>, depth: nat) returns (ok: bool)
    requires wb.Valid() && v == Table(arr, hash) && Wf(v) && depth <= MAX_DEPTH
    modifies wb
    ensures wb.Valid() && ok == Pack(v, depth).Ok?
    ensures ok ==> wb.Contents() == old(wb.Contents()) + Pack(v, depth).v
    decreases v, 1
  {
    ghost var x := wb.Contents();
    var n := |arr|;
    if n >= MAX_COOKIE - 1 {
      wb.Push([Combine(TYPE_TABLE, MAX_COOKIE - 1)]);
      WriteInt(wb, n);
      Assoc(x, [Combine(TYPE_TABLE, MAX_COOKIE - 1)], PackInt(n));
    } else {
      wb.Push([Combine(TYPE_TABLE, n)]);
    }
    ok := WriteArr(wb, v, arr, depth + 1);
    if !ok { return; }
    ghost var a := PackArr(arr, depth + 1).v;
    ok := WriteHash(wb, v, hash, depth + 1);
    if ok {
      Assoc(x, PackSize(n), a);
      Assoc(x, PackSize(n) + a, PackHash(hash, depth + 1).v);
    }
  }

  /** The value at integer `i` of a table with the entries `ps` (`lua_rawgeti`). */
  function RawGeti(ps: seq<Pair>, i: int): Value
  {
    if ps == [] then Nil else if ps[0].k == Int(i) then ps[0].v else RawGeti(ps[1..], i)
  }

  /** A key that `wb_table_hash` skips, because it is in the array part. */
  predicate Skipped(k: Value, n: nat) { k.Int? && 0 < k.i <= n }

  function HashPart(ps: seq<Pair>, n: nat): seq<Pair>
  {
    if ps == [] then [] else (if Skipped(ps[0].k, n) then [] else [ps[0]]) + HashPart(ps[1..], n)
  }

  /** A table with the entries `ps`, in the order of traversal, and length `n`, as
      it is written. */
  function Split(ps: seq<Pair>, n: nat): Value
  {
    Table(seq(n, i => RawGeti(ps, i + 1)), HashPart(ps, n))
  }

  /** The entries of a table that is read back. */
  ghost predicate HasEntry(t: Value, k: Value, v: Value)
    requires t.Table?
  {
    v != Nil && ((k.Int? && 0 < k.i <= |t.arr| && t.arr[k.i - 1] == v) || Pair(k, v) in t.hash)
  }

  lemma {:induction false} HashPartIn(ps: seq<Pair>, n: nat, p: Pair)
    ensures p in HashPart(ps, n) <==> p in ps && !Skipped(p.k, n)
    decreases |ps|
  {
    if ps != [] {
      HashPartIn(ps[1..], n, p);
      assert ps == [ps[0]] + ps[1..];
    }
  }

  lemma {:induction false} RawGetiIn(ps: seq<Pair>, i: int, v: Value)
    requires forall a, b :: 0 <= a < b < |ps| ==> ps[a].k != ps[b].k
    requires v != Nil
    ensures RawGeti(ps, i) == v <==> Pair(Int(i), v) in ps
    decreases |ps|
  {
    if ps != [] {
      assert ps == [ps[0]] + ps[1..];
      RawGetiIn(ps[1..], i, v);
      if ps[0].k == Int(i) {
        forall q | q in ps[1..] ensures q.k != Int(i) {
          var b :| 0 <= b < |ps[1..]| && ps[1..][b] == q;
          assert ps[0].k != ps[b + 1].k;
        }
      }
    }
  }

  /** Cutting a table into array and hash part loses no entry and adds none,
      whatever length the table has. */
  lemma {:induction false} SplitExact(ps: seq<Pair>, n: nat, k: Value, v: Value)
    requires (forall a, b :: 0 <= a < b < |ps| ==> ps[a].k != ps[b].k) && v != Nil
    ensures HasEntry(Split(ps, n), k, v) <==> Pair(k, v) in ps
  {
    HashPartIn(ps, n, Pair(k, v));
    if k.Int? { RawGetiIn(ps, k.i, v); }
  }

  /** The filter in the loop of `wb_table_hash`. */
  method HashKeys(ps: seq<Pair>, n: nat) returns (hash: seq<Pair>)
    ensures hash == HashPart(ps, n)
  {
    hash := [];
    for m := 0 to |ps|
      invariant hash + HashPart(ps[m..], n) == HashPart(ps, n)
    {
      assert ps[m..][1..] == ps[m + 1..] && ps[m..][0] == ps[m];
      var p := ps[m];
      if p.k.Int? && p.k.i > 0 && p.k.i <= n { continue; }
      assert hash + ([p] + HashPart(ps[m + 1..], n)) == hash + [p] + HashPart(ps[m + 1..], n);
      hash := hash + [p];
    }
    assert ps[|ps|..] == [] && hash + [] == hash;
  }

  /** `wb_table` on a table without `__pairs`: what is written is the table cut
      in two. */
  method WriteEntries(wb: WriteBlock, ps: seq<Pair>, n: nat, depth: nat) returns (ok: bool)
    requires wb.Valid() && Wf(Split(ps, n)) && depth <= MAX_DEPTH
    modifies wb
    ensures wb.Valid() && ok == Pack(Split(ps, n), depth).Ok?
    ensures ok ==> wb.Contents() == old(wb.Contents()) + Pack(Split(ps, n), depth).v
  {
    var hash := HashKeys(ps, n);
    ok := WriteTable(wb, Split(ps, n), seq(n, i => RawGeti(ps, i + 1)), hash, depth);
  }

  method WriteArr(wb: WriteBlock, ghost v: Value, arr: seq<Value>, depth: nat) returns (ok: bool)
    requires wb.Valid() && v.Table? && v.arr == arr && forall e :: e in arr ==> Wf(e)
    modifies wb
    ensures wb.Valid() && ok == PackArr(arr, depth).Ok?
    ensures ok ==> wb.Contents() == old(wb.Contents()) + PackArr(arr, depth).v
    decreases v, 0
  {
    ghost var x := wb.Contents();
    for i := 0 to |arr|
      invariant wb.Valid()
      invariant PackArr(arr[..i], depth).Ok? && wb.Contents() == x + PackArr(arr[..i], depth).v
    {
      assert arr[i] in arr;
      ArrSnoc(arr[..i], arr[i], depth);
      assert arr[..i + 1] == arr[..i] + [arr[i]];
      ok := PackOne(wb, arr[i], depth);
      if !ok {
        ArrStuck(arr, i, depth);
        return;
      }
      Assoc(x, PackArr(arr[..i], depth).v, Pack(arr[i], depth).v);
    }
    assert arr[..|arr|] == arr;
    return true;
  }

  lemma {:induction false} ArrSnoc(arr: seq<Value>, e: Value, depth: nat)
    requires (forall x :: x in arr ==> Wf(x)) && Wf(e)
    ensures forall x :: x in arr + [e] ==> Wf(x)
    ensures PackArr(arr + [e], depth) == Then(PackArr(arr, depth), Pack(e, depth))
    decreases |arr|
  {
    if arr == [] {
      assert arr + [e] == [e];
      assert PackArr([e][1..], depth) == Ok([]);
      ThenLaws(Pack(e, depth), Ok([]), Ok([]));
      assert Pack(e, depth).Ok? ==> Pack(e, depth).v + [] == Pack(e, depth).v;
    } else {
      assert (arr + [e])[1..] == arr[1..] + [e];
      ArrSnoc(arr[1..], e, depth);
      ThenLaws(Pack(arr[0], depth), PackArr(arr[1..], depth), Pack(e, depth));
    }
  }

  lemma {:induction false} ArrStuck(arr: seq<Value>, i: nat, depth: nat)
    requires i < |arr| && (forall x :: x in arr ==> Wf(x)) && Pack(arr[i], depth).Error?
    ensures PackArr(arr, depth).Error?
    decreases i
  {
    if i > 0 { ArrStuck(arr[1..], i - 1, depth); }
  }

  method WriteHash(wb: WriteBlock, ghost v: Value, hash: seq<Pair>, depth: nat) returns (ok: bool)
    requires wb.Valid() && v.Table? && v.hash == hash && forall p :: p in hash ==> Wf(p.k) && Wf(p.v)
    modifies wb
    ensures wb.Valid() && ok == PackHash(hash, depth).Ok?
    ensures ok ==> wb.Contents() == old(wb.Contents()) + PackHash(hash, depth).v
    decreases v, 0
  {
    ghost var x := wb.Contents();
    ghost var w: Bytes := [];
    assert hash[0..] == hash;
    ThenLaws(PackHash(hash, depth), Ok([]), Ok([]));
    for i := 0 to |hash|
      invariant wb.Valid() && wb.Contents() == x + w
      invariant PackHash(hash, depth) == Then(Ok(w), PackHash(hash[i..], depth))
    {
      assert hash[i] in hash;
      ghost var rest := PackHash(hash[i + 1..], depth);
      assert hash[i..][1..] == hash[i + 1..];
      ok := PackOne(wb, hash[i].k, depth);
      if !ok { return; }
      ok := PackOne(wb, hash[i].v, depth);
      if !ok { return; }
      ghost var k, e := Pack(hash[i].k, depth).v, Pack(hash[i].v, depth).v;
      PairStep(x, w, k, e, rest);
      w := w + (k + e);
    }
    wb.Push([TYPE_NIL]);
    Assoc(x, w, [TYPE_NIL]);
    return true;
  }

  lemma {:induction false} PairStep(x: Bytes, w: Bytes, k: Bytes, e: Bytes, rest: Result<Bytes>)
    ensures x + w + k + e == x + (w + (k + e))
    ensures Then(Ok(w), Then(Ok(k + e), rest)) == Then(Ok(w + (k + e)), rest)
  {
    ThenLaws(Ok(w), Ok(k + e), rest);
    assert x + w + k + e == x + (w + (k + e));
  }

  /** `luaseri_pack`: all values, flattened. */
  method PackValues(vs: seq<Value>) returns (ok: bool, buffer: Bytes)
    requires forall v :: v in vs ==> Wf(v)
    ensures ok == PackAll(vs).Ok? && (ok ==> buffer == PackAll(vs).v && UnpackAll(buffer) == Ok(vs))
  {
    var wb := new WriteBlock(seq(BLOCK_SIZE, _ => 0));
    ghost var w: Bytes := [];
    buffer := [];
    assert vs[0..] == vs;
    ThenLaws(PackAll(vs), Ok([]), Ok([]));
    for i := 0 to |vs|
      invariant wb.Valid() && wb.Contents() == w && PackAll(vs) == Then(Ok(w), PackAll(vs[i..]))
    {
      assert vs[i] in vs;
      assert vs[i..][1..] == vs[i + 1..];
      ok := PackOne(wb, vs[i], 0);
      if !ok { return; }
      ThenLaws(Ok(w), Pack(vs[i], 0), PackAll(vs[i + 1..]));
      w := w + Pack(vs[i], 0).v;
    }
    buffer := wb.Seri();
    ok := true;
    assert w + [] == w;
    SeqRoundTrip(vs);
  }

  // ------------------------------------------------------------------ unpacking

  /** `struct read_block` */
  class ReadBlock {
    const buffer: Bytes
    var len: int
    var ptr: int

    ghost predicate Valid()
      reads this
    {
      ptr + len == |buffer| && ptr >= 0 && len >= 0
    }

    ghost function Rest(): (r: Bytes)
      requires Valid()
      reads this
    {
      buffer[ptr..]
    }

    constructor (b: Bytes)
      ensures Valid() && Rest() == b && buffer == b
    {
      buffer, len, ptr := b, |b|, 0;
    }

    /** `rb_read`; for a negative size it moves the cursor back. */
    method RbRead(sz: int) returns (ok: bool, x: Bytes)
      requires Valid()
      modifies this
      ensures sz < 0 ==> ok && ptr == old(ptr) + sz && len == old(len) - sz
      ensures sz >= 0 ==> Valid() && ok == Read(old(Rest()), sz).Ok?
      ensures sz >= 0 ==> if ok then Read(old(Rest()), sz) == Ok((x, Rest())) else Rest() == old(Rest())
    {
      x := [];
      if len < sz { return false, x; }
      if sz >= 0 {
        x := buffer[ptr..ptr + sz];
        assert buffer[ptr..][..sz] == x && buffer[ptr..][sz..] == buffer[ptr + sz..];
      }
      ptr := ptr + sz;
      len := len - sz;
      ok := true;
    }
  }

  /** `get_buffer`; a string of negative length is refused by Lua. */
  method ReadBuffer(rb: ReadBlock, len: int) returns (ok: bool, v: Value)
    requires rb.Valid()
    modifies rb
    ensures if ok then rb.Valid() && GetBuffer(old(rb.Rest()), len) == Ok((v, rb.Rest()))
            else GetBuffer(old(rb.Rest()), len) == Error
  {
    var x;
    ok, x := rb.RbRead(len);
    v := Str(x);
    if len < 0 { ok := false; }
  }

  /** `get_integer` */
  method ReadInt(rb: ReadBlock, cookie: int) returns (ok: bool, i: int)
    requires rb.Valid()
    modifies rb
    ensures if ok then rb.Valid() && GetInt(old(rb.Rest()), cookie) == Ok((i, rb.Rest()))
      else GetInt(old(rb.Rest()), cookie) == Error
  {
    i := 0;
    if cookie == TYPE_NUMBER_ZERO { return true, 0; }
    if cookie != TYPE_NUMBER_BYTE && cookie != TYPE_NUMBER_WORD && cookie != TYPE_NUMBER_DWORD &&
      cookie != TYPE_NUMBER_QWORD {
      return false, 0;
    }
    var n := if cookie == TYPE_NUMBER_BYTE then 1 else if cookie == TYPE_NUMBER_WORD then 2
             else if cookie == TYPE_NUMBER_DWORD then 4 else 8;
    var x;
    ok, x := rb.RbRead(n);
    if ok { i := if n == 4 then Signed(FromLe(x), P32) else if n == 8 then Signed(FromLe(x), P64) else FromLe(x); }
  }

  /** `unpack_one` */
  method ReadValue(rb: ReadBlock) returns (ok: bool, v: Value)
    requires rb.Valid()
    modifies rb
    ensures if ok then rb.Valid() && Unpack(old(rb.Rest())) == Ok((v, rb.Rest())) else Unpack(old(rb.Rest())) == Error
    decreases |rb.Rest()|, 1
  {
    v := Nil;
    var x;
    ok, x := rb.RbRead(1);
    if ok { ok, v := ReadTyped(rb, x[0] % 8, x[0] / 8); }
  }

  /** `push_value` */
  method ReadTyped(rb: ReadBlock, t: int, cookie: int) returns (ok: bool, v: Value)
    requires rb.Valid() && 0 <= cookie < 32
    modifies rb
    ensures if ok then rb.Valid() && PushValue(old(rb.Rest()), t, cookie) == Ok((v, rb.Rest()))
      else PushValue(old(rb.Rest()), t, cookie) == Error
    decreases |rb.Rest()|, 4
  {
    v := Nil;
    var x: Bytes := [];
    if t == TYPE_NIL { return true, Nil; }
    if t == TYPE_BOOLEAN { return true, Bool(cookie != 0); }
    if t == TYPE_NUMBER {
      if cookie == TYPE_NUMBER_REAL {
        ok, x := rb.RbRead(8);
        v := Real(x);
      } else {
        var i;
        ok, i := ReadInt(rb, cookie);
        v := Int(i);
      }
    } else if t == TYPE_USERDATA {
      ok, x := rb.RbRead(8);
      v := Pointer(x);
    } else if t == TYPE_SHORT_STRING {
      ok, v := ReadBuffer(rb, cookie);
    } else if t == TYPE_LONG_STRING {
      if cookie != 2 && cookie != 4 { return false, Nil; }
      ok, x := rb.RbRead(cookie);
      if ok {
        ok, v := ReadBuffer(rb, ToInt(FromLe(x)));
      }
    } else if t == TYPE_TABLE {
      ok, v := ReadTable(rb, cookie);
    } else {
      return false, Nil;
    }
  }

  /** `unpack_table` */
  method ReadTable(rb: ReadBlock, cookie: int) returns (ok: bool, v: Value)
    requires rb.Valid()
    modifies rb
    ensures if ok then rb.Valid() && UnpackTable(old(rb.Rest()), cookie) == Ok((v, rb.Rest()))
      else UnpackTable(old(rb.Rest()), cookie) == Error
    decreases |rb.Rest()|, 3
  {
    v := Nil;
    ghost var b := rb.Rest();
    var n := cookie;
    if cookie == MAX_COOKIE - 1 {
      var x, i;
      ok, x := rb.RbRead(1);
      if !ok { return; }
      if x[0] % 8 != TYPE_NUMBER || x[0] / 8 == TYPE_NUMBER_REAL { return false, Nil; }
      ok, i := ReadInt(rb, x[0] / 8);
      if !ok { return; }
      n := ToInt(i);
    }
    assert GetSize(b, cookie) == Ok((n, rb.Rest()));
    var arr, hash;
    ok, arr := ReadArr(rb, n);
    if !ok { return; }
    ok, hash := ReadHash(rb);
    v := Table(arr, hash);
  }

  method ReadArr(rb: ReadBlock, n: int) returns (ok: bool, arr: seq<Value>)
    requires rb.Valid()
    modifies rb
    ensures if ok then rb.Valid() && UnpackArr(old(rb.Rest()), n) == Ok((arr, rb.Rest()))
      else UnpackArr(old(rb.Rest()), n) == Error
    decreases |rb.Rest()|, 2
  {
    ghost var b := rb.Rest();
    arr := [];
    var i := 0;
    PrependNone(UnpackArr(b, n));
    while i < n
      invariant rb.Valid() && |rb.Rest()| <= |b| && 0 <= i && (i <= n || i == 0)
      invariant PrependArr(arr, UnpackArr(rb.Rest(), n - i)) == UnpackArr(b, n)
      decreases n - i
    {
      ghost var r := UnpackArr(rb.Rest(), n - i);
      var v;
      ok, v := ReadValue(rb);
      if !ok { return false, []; }
      PrependStep(arr, v, UnpackArr(rb.Rest(), n - i - 1));
      arr := arr + [v];
      i := i + 1;
    }
    assert arr + [] == arr;
    ok := true;
  }

  /** Elements already read in front of those still to be read. */
  ghost function PrependArr<T>(done: seq<T>, r: Result<(seq<T>, Bytes)>): Result<(seq<T>, Bytes)>
  {
    match r case Error => Error case Ok((vs, rest)) => Ok((done + vs, rest))
  }

  lemma {:induction false} PrependNone<T>(r: Result<(seq<T>, Bytes)>)
    ensures PrependArr([], r) == r
  {
    if r.Ok? { assert [] + r.v.0 == r.v.0; }
  }

  lemma {:induction false} PrependStep<T>(done: seq<T>, v: T, r: Result<(seq<T>, Bytes)>)
    ensures PrependArr(done, PrependArr([v], r)) == PrependArr(done + [v], r)
  {
    if r.Ok? { assert done + ([v] + r.v.0) == done + [v] + r.v.0; }
  }

  method ReadHash(rb: ReadBlock) returns (ok: bool, hash: seq<Pair>)
    requires rb.Valid()
    modifies rb
    ensures if ok then rb.Valid() && UnpackHash(old(rb.Rest())) == Ok((hash, rb.Rest()))
      else UnpackHash(old(rb.Rest())) == Error
    decreases |rb.Rest()|, 2
  {
    ghost var b := rb.Rest();
    hash := [];
    PrependNone(UnpackHash(b));
    while true
      invariant rb.Valid() && |rb.Rest()| <= |b| && PrependArr(hash, UnpackHash(rb.Rest())) == UnpackHash(b)
      decreases |rb.Rest()|
    {
      ghost var b0 := rb.Rest();
      var k, v;
      ok, k := ReadValue(rb);
      if !ok { return false, []; }
      if k == Nil {
        assert hash + [] == hash;
        return true, hash;
      }
      ok, v := ReadValue(rb);
      if !ok { return false, []; }
      PrependStep(hash, Pair(k, v), UnpackHash(rb.Rest()));
      hash := hash + [Pair(k, v)];
    }
  }

  /** `luaseri_unpack` */
  method UnpackValues(buffer: Bytes) returns (ok: bool, vs: seq<Value>)
    ensures if ok then UnpackAll(buffer) == Ok(vs) else UnpackAll(buffer) == Error
  {
    var rb := new ReadBlock(buffer);
    ok, vs := ReadAll(rb);
  }

  method ReadAll(rb: ReadBlock) returns (ok: bool, vs: seq<Value>)
    requires rb.Valid()
    modifies rb
    ensures UnpackAll(old(rb.Rest())) == if ok then Ok(vs) else Error
  {
    ghost var all := UnpackAll(rb.Rest());
    vs := [];
    PrependAll(vs, all);
    while rb.len > 0
      invariant rb.Valid() && all == AllAfter(vs, UnpackAll(rb.Rest()))
      decreases |rb.Rest()|
    {
      ghost var b := rb.Rest();
      var v;
      ok, v := ReadValue(rb);
      AllStep(b, ok, v, if ok then rb.Rest() else []);
      if !ok { return; }
      AfterStep(vs, v, UnpackAll(rb.Rest()));
      vs := vs + [v];
    }
    assert vs + [] == vs;
    ok := true;
  }

  lemma {:induction false} AllStep(b: Bytes, ok: bool, v: Value, rest: Bytes)
    requires b != [] && Unpack(b) == if ok then Ok((v, rest)) else Error
    ensures UnpackAll(b) == if ok then AllAfter([v], UnpackAll(rest)) else Error
  {
  }

  ghost function AllAfter(done: seq<Value>, r: Result<seq<Value>>): Result<seq<Value>>
  {
    match r case Error => Error case Ok(vs) => Ok(done + vs)
  }

  lemma {:induction false} PrependAll(done: seq<Value>, r: Result<seq<Value>>)
    requires done == []
    ensures AllAfter(done, r) == r
  {
    if r.Ok? { assert [] + r.v == r.v; }
  }

  lemma {:induction false} AfterStep(done: seq<Value>, v: Value, r: Result<seq<Value>>)
    ensures AllAfter(done, AllAfter([v], r)) == AllAfter(done + [v], r)
  {
    if r.Ok? { assert done + ([v] + r.v) == done + [v] + r.v; }
  }
}
