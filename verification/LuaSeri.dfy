/** The value serializer of lua-seri.c: what it writes, what it reads, and that
    reading undoes writing. */
module LuaSeri {
  import opened Common

  type Byte = b: int | 0 <= b < 256

  type Bytes = seq<Byte>

  /** A Lua value as the serializer sees it.  A real number and a pointer are
      their eight bytes; a table is its array part and its other pairs in the
      order in which they are traversed. */
  datatype Value =
    | Nil
    | Bool(b: bool)
    | Int(i: int)
    | Real(bits: Bytes)
    | Pointer(bits: Bytes)
    | Str(s: Bytes)
    | Table(arr: seq<Value>, hash: seq<Pair>)
    | Unsupported

  datatype Pair = Pair(k: Value, v: Value)

  const TYPE_NIL := 0
  const TYPE_BOOLEAN := 1
  const TYPE_NUMBER := 2
  const TYPE_USERDATA := 3
  const TYPE_SHORT_STRING := 4
  const TYPE_LONG_STRING := 5
  const TYPE_TABLE := 6
  const TYPE_NUMBER_ZERO := 0
  const TYPE_NUMBER_BYTE := 1
  const TYPE_NUMBER_WORD := 2
  const TYPE_NUMBER_DWORD := 4
  const TYPE_NUMBER_QWORD := 6
  const TYPE_NUMBER_REAL := 8
  const MAX_COOKIE := 32
  const MAX_DEPTH := 32
  const P31: int := 0x8000_0000
  const P32: int := 0x1_0000_0000
  const P63: int := 0x8000_0000_0000_0000
  const P64: int := 0x1_0000_0000_0000_0000

  /** The limits of Lua integers, doubles, pointers and of the lengths that the
      serializer keeps in an `int`; keys are not nil. */
  ghost predicate Wf(v: Value)
  {
    match v
    case Int(i) => -P63 <= i < P63
    case Real(bits) => |bits| == 8
    case Pointer(bits) => |bits| == 8
    case Str(s) => |s| < P31
    case Table(arr, hash) =>
      |arr| < P31 && (forall x :: x in arr ==> Wf(x)) && forall p :: p in hash ==> Wf(p.k) && Wf(p.v) && p.k != Nil
    case _ => true
  }

  // ------------------------------------------------------------------- numbers

  function Combine(t: int, cookie: int): Byte
    requires 0 <= t < 8 && 0 <= cookie < 32
  {
    t + 8 * cookie
  }

  /** Little-endian bytes of a number. */
  function Le(n: nat, k: nat): (b: Bytes)
    ensures |b| == k
  {
    if k == 0 then [] else [n % 256] + Le(n / 256, k - 1)
  }

  function FromLe(b: Bytes): nat
  {
    if b == [] then 0 else b[0] + 256 * FromLe(b[1..])
  }

  function Pow256(k: nat): nat
  {
    if k == 0 then 1 else 256 * Pow256(k - 1)
  }

  lemma {:induction false} FromLeLe(n: nat, k: nat)
    requires n < Pow256(k)
    ensures FromLe(Le(n, k)) == n
    decreases k
  {
    if k > 0 {
      assert n / 256 < Pow256(k - 1);
      FromLeLe(n / 256, k - 1);
      assert Le(n, k)[1..] == Le(n / 256, k - 1);
    }
  }

  lemma Pow256Values()
    ensures Pow256(1) == 256 && Pow256(2) == 0x10000 && Pow256(4) == P32 && Pow256(8) == P64
  {
    assert Pow256(4) == 256 * 256 * Pow256(2);
    assert Pow256(5) == 256 * Pow256(4);
    assert Pow256(6) == 256 * Pow256(5);
    assert Pow256(7) == 256 * Pow256(6);
  }

  /** Two's complement of 32 and 64 bits. */
  function Unsigned(v: int, m: int): nat
    requires m > 0 && -m <= v < m
  {
    if v < 0 then v + m else v
  }

  function Signed(n: nat, m: int): int
  {
    if n >= m / 2 then n - m else n
  }

  /** `wb_integer` */
  function PackInt(v: int): Bytes
    requires -P63 <= v < P63
  {
    if v == 0 then [Combine(TYPE_NUMBER, TYPE_NUMBER_ZERO)]
    else if !(-P31 <= v < P31) then [Combine(TYPE_NUMBER, TYPE_NUMBER_QWORD)] + Le(Unsigned(v, P64), 8)
    else if v < 0 then [Combine(TYPE_NUMBER, TYPE_NUMBER_DWORD)] + Le(Unsigned(v, P32), 4)
    else if v < 0x100 then [Combine(TYPE_NUMBER, TYPE_NUMBER_BYTE)] + Le(v, 1)
    else if v < 0x10000 then [Combine(TYPE_NUMBER, TYPE_NUMBER_WORD)] + Le(v, 2)
    else [Combine(TYPE_NUMBER, TYPE_NUMBER_DWORD)] + Le(v, 4)
  }

  /** `rb_read`: the next `n` bytes and what follows. */
  function Read(b: Bytes, n: nat): (r: Result<(Bytes, Bytes)>)
    ensures r.Ok? ==> |r.v.0| == n && r.v.0 + r.v.1 == b
  {
    if |b| < n then Error else Ok((b[..n], b[n..]))
  }

  /** `get_integer` */
  function GetInt(b: Bytes, cookie: int): (r: Result<(int, Bytes)>)
    ensures r.Ok? ==> |r.v.1| <= |b|
  {
    var n := if cookie == TYPE_NUMBER_BYTE then 1 else if cookie == TYPE_NUMBER_WORD then 2
             else if cookie == TYPE_NUMBER_DWORD then 4 else 8;
    if cookie == TYPE_NUMBER_ZERO then Ok((0, b))
    else if cookie != TYPE_NUMBER_BYTE && cookie != TYPE_NUMBER_WORD && cookie != TYPE_NUMBER_DWORD &&
      cookie != TYPE_NUMBER_QWORD then Error
    else
      match Read(b, n)
      case Error => Error
      case Ok((x, rest)) =>
        var u := FromLe(x);
        Ok((if n == 4 then Signed(u, P32) else if n == 8 then Signed(u, P64) else u, rest))
  }

  lemma {:induction false} ReadCat(x: Bytes, rest: Bytes)
    ensures Read(x + rest, |x|) == Ok((x, rest))
  {
  }

  /** Reading the bytes of an integer gives the integer. */
  lemma {:induction false} IntRoundTrip(v: int, rest: Bytes)
    requires -P63 <= v < P63
    ensures var b := PackInt(v);
      |b| > 0 && b[0] % 8 == TYPE_NUMBER && b[0] / 8 != TYPE_NUMBER_REAL &&
        GetInt(b[1..] + rest, b[0] / 8) == Ok((v, rest))
  {
    Pow256Values();
    var b := PackInt(v);
    var x := b[1..];
    ReadCat(x, rest);
    if v == 0 { assert x + rest == rest; }
    else if !(-P31 <= v < P31) { assert x == Le(Unsigned(v, P64), 8); FromLeLe(Unsigned(v, P64), 8); }
    else if v < 0 { assert x == Le(Unsigned(v, P32), 4); FromLeLe(Unsigned(v, P32), 4); }
    else if v < 0x100 { assert x == Le(v, 1); FromLeLe(v, 1); }
    else if v < 0x10000 { assert x == Le(v, 2); FromLeLe(v, 2); }
    else { assert x == Le(v, 4); FromLeLe(v, 4); }
  }

  // -------------------------------------------------------------------- packing

  /** `wb_string` */
  function PackStr(s: Bytes): Bytes
    requires |s| < P31
  {
    if |s| < MAX_COOKIE then [Combine(TYPE_SHORT_STRING, |s|)] + s
    else if |s| < 0x10000 then [Combine(TYPE_LONG_STRING, 2)] + Le(|s|, 2) + s
    else [Combine(TYPE_LONG_STRING, 4)] + Le(|s|, 4) + s
  }

  /** The first byte of a table, and the size of its array part. */
  function PackSize(n: nat): Bytes
    requires n < P31
  {
    if n >= MAX_COOKIE - 1 then [Combine(TYPE_TABLE, MAX_COOKIE - 1)] + PackInt(n)
    else [Combine(TYPE_TABLE, n)]
  }

  function Then(a: Result<Bytes>, b: Result<Bytes>): Result<Bytes>
  {
    if a.Ok? && b.Ok? then Ok(a.v + b.v) else Error
  }

  /** `pack_one` */
  function Pack(v: Value, depth: nat): Result<Bytes>
    requires Wf(v)
    decreases v, 0
  {
    if depth > MAX_DEPTH then Error else
    match v
    case Nil => Ok([TYPE_NIL])
    case Bool(b) => Ok([Combine(TYPE_BOOLEAN, if b then 1 else 0)])
    case Int(i) => Ok(PackInt(i))
    case Real(bits) => Ok([Combine(TYPE_NUMBER, TYPE_NUMBER_REAL)] + bits)
    case Pointer(bits) => Ok([TYPE_USERDATA] + bits)
    case Str(s) => Ok(PackStr(s))
    case Table(arr, hash) => Then(Then(Ok(PackSize(|arr|)), PackArr(arr, depth + 1)), PackHash(hash, depth + 1))
    case Unsupported => Error
  }

  /** The loop of `wb_table_array` */
  function PackArr(arr: seq<Value>, depth: nat): Result<Bytes>
    requires forall x :: x in arr ==> Wf(x)
    decreases arr, 0
  {
    if arr == [] then Ok([]) else Then(Pack(arr[0], depth), PackArr(arr[1..], depth))
  }

  /** `wb_table_hash` */
  function PackHash(hash: seq<Pair>, depth: nat): Result<Bytes>
    requires forall p :: p in hash ==> Wf(p.k) && Wf(p.v)
    decreases hash, 0
  {
    if hash == [] then Ok([TYPE_NIL]) else
    Then(PackPair(hash[0], depth), PackHash(hash[1..], depth))
  }

  function PackPair(p: Pair, depth: nat): Result<Bytes>
    requires Wf(p.k) && Wf(p.v)
    decreases p, 0
  {
    Then(Pack(p.k, depth), Pack(p.v, depth))
  }

  /** `pack_from`: all arguments. */
  function PackAll(vs: seq<Value>): Result<Bytes>
    requires forall v :: v in vs ==> Wf(v)
  {
    if vs == [] then Ok([]) else Then(Pack(vs[0], 0), PackAll(vs[1..]))
  }

  // ------------------------------------------------------------------ unpacking

  /** Conversion to a 32-bit `int`. */
  function ToInt(v: int): int
  {
    Signed(v % P32, P32)
  }

  /** `unpack_one` */
  function Unpack(b: Bytes): (r: Result<(Value, Bytes)>)
    ensures r.Ok? ==> |r.v.1| < |b|
    decreases |b|, 1
  {
    if b == [] then Error else PushValue(b[1..], b[0] % 8, b[0] / 8)
  }

  /** `push_value` */
  function PushValue(b: Bytes, t: int, cookie: int): (r: Result<(Value, Bytes)>)
    requires 0 <= cookie < 32
    ensures r.Ok? ==> |r.v.1| <= |b|
    decreases |b|, 4
  {
    if t == TYPE_NIL then Ok((Nil, b))
    else if t == TYPE_BOOLEAN then Ok((Bool(cookie != 0), b))
    else if t == TYPE_NUMBER then
      if cookie == TYPE_NUMBER_REAL then
        (match Read(b, 8) case Error => Error case Ok((x, rest)) => Ok((Real(x), rest)))
      else
        (match GetInt(b, cookie) case Error => Error case Ok((i, rest)) => Ok((Int(i), rest)))
    else if t == TYPE_USERDATA then
      (match Read(b, 8) case Error => Error case Ok((x, rest)) => Ok((Pointer(x), rest)))
    else if t == TYPE_SHORT_STRING then GetBuffer(b, cookie)
    else if t == TYPE_LONG_STRING then
      if cookie != 2 && cookie != 4 then Error
      else (match Read(b, cookie) case Error => Error case Ok((x, rest)) => GetBuffer(rest, ToInt(FromLe(x))))
    else if t == TYPE_TABLE then UnpackTable(b, cookie)
    else Error
  }

  /** `get_buffer`: a negative length is not refused by `rb_read`, but it is too
      much for the string it would make. */
  function GetBuffer(b: Bytes, n: int): (r: Result<(Value, Bytes)>)
    ensures r.Ok? ==> |r.v.1| <= |b|
  {
    if n < 0 then Error else
    match Read(b, n) case Error => Error case Ok((x, rest)) => Ok((Str(x), rest))
  }

  /** Which streams that announce a long string are accepted: the length has less
      than 32 bits and is there. */
  lemma {:induction false} LongStringIff(n: nat, rest: Bytes)
    requires n < P32
    ensures var r := Unpack([Combine(TYPE_LONG_STRING, 4)] + Le(n, 4) + rest);
      r == if n < P31 && n <= |rest| then Ok((Str(rest[..n]), rest[n..])) else Error
  {
    var b := [Combine(TYPE_LONG_STRING, 4)] + Le(n, 4) + rest;
    assert b[1..] == Le(n, 4) + rest;
    Pow256Values();
    FromLeLe(n, 4);
    assert (Le(n, 4) + rest)[..4] == Le(n, 4) && (Le(n, 4) + rest)[4..] == rest;
  }

  /** The size of the array part. */
  function GetSize(b: Bytes, cookie: int): (r: Result<(int, Bytes)>)
    ensures r.Ok? ==> |r.v.1| <= |b|
  {
    if cookie != MAX_COOKIE - 1 then Ok((cookie, b))
    else if b == [] || b[0] % 8 != TYPE_NUMBER || b[0] / 8 == TYPE_NUMBER_REAL then Error
    else (match GetInt(b[1..], b[0] / 8) case Error => Error case Ok((i, rest)) => Ok((ToInt(i), rest)))
  }

  /** `unpack_table` */
  function UnpackTable(b: Bytes, cookie: int): (r: Result<(Value, Bytes)>)
    ensures r.Ok? ==> |r.v.1| <= |b|
    decreases |b|, 3
  {
    match GetSize(b, cookie)
    case Error => Error
    case Ok((n, b1)) =>
      match UnpackArr(b1, n)
      case Error => Error
      case Ok((arr, b2)) =>
        match UnpackHash(b2)
        case Error => Error
        case Ok((hash, rest)) => Ok((Table(arr, hash), rest))
  }

  function UnpackArr(b: Bytes, n: int): (r: Result<(seq<Value>, Bytes)>)
    ensures r.Ok? ==> |r.v.1| <= |b|
    decreases |b|, 2
  {
    if n <= 0 then Ok(([], b)) else
    match Unpack(b)
    case Error => Error
    case Ok((v, b1)) =>
      match UnpackArr(b1, n - 1)
      case Error => Error
      case Ok((vs, rest)) => Ok(([v] + vs, rest))
  }

  function UnpackHash(b: Bytes): (r: Result<(seq<Pair>, Bytes)>)
    ensures r.Ok? ==> |r.v.1| <= |b|
    decreases |b|, 2
  {
    match Unpack(b)
    case Error => Error
    case Ok((k, b1)) =>
      if k == Nil then Ok(([], b1)) else
      match Unpack(b1)
      case Error => Error
      case Ok((v, b2)) =>
        match UnpackHash(b2)
        case Error => Error
        case Ok((ps, rest)) => Ok(([Pair(k, v)] + ps, rest))
  }

  /** `luaseri_unpack`: values until the input ends. */
  function UnpackAll(b: Bytes): Result<seq<Value>>
    decreases |b|
  {
    if b == [] then Ok([]) else
    match Unpack(b)
    case Error => Error
    case Ok((v, rest)) =>
      match UnpackAll(rest)
      case Error => Error
      case Ok(vs) => Ok([v] + vs)
  }

  // ----------------------------------------------------------------- round trip

  lemma {:induction false} StrRoundTrip(s: Bytes, rest: Bytes)
    requires |s| < P31
    ensures |PackStr(s)| > 0 && Unpack(PackStr(s) + rest) == Ok((Str(s), rest))
  {
    var b := PackStr(s);
    if |s| < MAX_COOKIE {
      assert (b + rest)[1..] == s + rest;
      ReadCat(s, rest);
    } else {
      Pow256Values();
      LongRoundTrip(s, rest, if |s| < 0x10000 then 2 else 4);
    }
  }

  lemma {:induction false} PushLong(n: nat, k: nat, tail: Bytes)
    requires (k == 2 || k == 4) && n < Pow256(k)
    ensures PushValue(Le(n, k) + tail, TYPE_LONG_STRING, k) == GetBuffer(tail, ToInt(n))
  {
    FromLeLe(n, k);
    ReadCat(Le(n, k), tail);
  }

  lemma {:induction false} TypeTail(c: Byte, x: Bytes, s: Bytes, rest: Bytes)
    ensures ([c] + x + s + rest)[0] == c && ([c] + x + s + rest)[1..] == x + (s + rest)
  {
  }

  lemma {:induction false} LongRoundTrip(s: Bytes, rest: Bytes, k: nat)
    requires (k == 2 || k == 4) && |s| < P31 && |s| < Pow256(k)
    ensures Unpack([Combine(TYPE_LONG_STRING, k)] + Le(|s|, k) + s + rest) == Ok((Str(s), rest))
  {
    TypeTail(Combine(TYPE_LONG_STRING, k), Le(|s|, k), s, rest);
    PushLong(|s|, k, s + rest);
    ReadCat(s, rest);
    assert ToInt(|s|) == |s|;
  }

  lemma {:induction false} LongSize(x: Bytes, n: nat, rest: Bytes)
    requires n < P31 && |x| > 0 && x[0] % 8 == TYPE_NUMBER && x[0] / 8 != TYPE_NUMBER_REAL
    requires GetInt(x[1..] + rest, x[0] / 8) == Ok((n, rest))
    ensures GetSize(x + rest, MAX_COOKIE - 1) == Ok((n, rest))
  {
    assert (x + rest)[1..] == x[1..] + rest && (x + rest)[0] == x[0];
    assert ToInt(n) == n;
  }

  lemma {:induction false} SizeRoundTrip(n: nat, rest: Bytes)
    requires n < P31
    ensures var b := PackSize(n); |b| > 0 && b[0] % 8 == TYPE_TABLE && GetSize(b[1..] + rest, b[0] / 8) == Ok((n, rest))
  {
    var b := PackSize(n);
    if n >= MAX_COOKIE - 1 {
      var x := PackInt(n);
      IntRoundTrip(n, rest);
      assert b[1..] == x;
      LongSize(x, n, rest);
    } else {
      assert b[1..] + rest == rest;
    }
  }

  /** Whenever packing a value succeeds, unpacking gives the value back, and
      leaves what follows. */
  lemma {:induction false} RoundTrip(v: Value, depth: nat, rest: Bytes)
    requires Wf(v) && Pack(v, depth).Ok?
    ensures |Pack(v, depth).v| > 0 && Unpack(Pack(v, depth).v + rest) == Ok((v, rest))
    decreases v, 0
  {
    var b := Pack(v, depth).v;
    match v
    case Int(i) =>
      IntRoundTrip(i, rest);
      assert (b + rest)[1..] == b[1..] + rest;
    case Real(bits) => assert (b + rest)[1..] == bits + rest; ReadCat(bits, rest);
    case Pointer(bits) => assert (b + rest)[1..] == bits + rest; ReadCat(bits, rest);
    case Str(s) => StrRoundTrip(s, rest);
    case Table(arr, hash) => TableRoundTrip(v, arr, hash, depth, rest);
    case Nil => assert (b + rest)[1..] == rest;
    case Bool(_) => assert (b + rest)[1..] == rest;
    case _ =>
  }

  lemma {:induction false} TableRoundTrip(v: Value, arr: seq<Value>, hash: seq<Pair>, depth: nat, rest: Bytes)
    requires v == Table(arr, hash) && Wf(v) && Pack(v, depth).Ok?
    ensures |Pack(v, depth).v| > 0 && Unpack(Pack(v, depth).v + rest) == Ok((v, rest))
    decreases v, 0, 0
  {
    var size := PackSize(|arr|);
    var a := PackArr(arr, depth + 1).v;
    var h := PackHash(hash, depth + 1).v;
    SizeRoundTrip(|arr|, a + (h + rest));
    ArrRoundTrip(arr, depth + 1, h + rest);
    HashRoundTrip(hash, depth + 1, rest);
    TableParts(size, a, h, rest, arr, hash);
  }

  /** A table is read from its parts. */
  lemma {:induction false} TableParts(size: Bytes, a: Bytes, h: Bytes, rest: Bytes, arr: seq<Value>, hash: seq<Pair>)
    requires |size| > 0 && size[0] % 8 == TYPE_TABLE &&
      GetSize(size[1..] + (a + (h + rest)), size[0] / 8) == Ok((|arr|, a + (h + rest)))
    requires UnpackArr(a + (h + rest), |arr|) == Ok((arr, h + rest)) && UnpackHash(h + rest) == Ok((hash, rest))
    ensures Unpack(size + a + h + rest) == Ok((Table(arr, hash), rest))
  {
    var tail := a + (h + rest);
    TableAfterSize(size[1..] + tail, size[0] / 8, |arr|, tail, h + rest, rest, arr, hash);
    HeadTail(size, a, h, rest);
  }

  lemma {:induction false} TableAfterSize(b: Bytes, cookie: int, n: int, b1: Bytes, b2: Bytes, rest: Bytes,
      arr: seq<Value>, hash: seq<Pair>)
    requires GetSize(b, cookie) == Ok((n, b1)) && UnpackArr(b1, n) == Ok((arr, b2)) &&
      UnpackHash(b2) == Ok((hash, rest))
    ensures UnpackTable(b, cookie) == Ok((Table(arr, hash), rest))
  {
  }

  lemma {:induction false} HeadTail(size: Bytes, a: Bytes, h: Bytes, rest: Bytes)
    requires |size| > 0
    ensures var b := size + a + h + rest; b != [] && b[0] == size[0] && b[1..] == size[1..] + (a + (h + rest))
  {
  }

  lemma {:induction false} ArrRoundTrip(arr: seq<Value>, depth: nat, rest: Bytes)
    requires (forall x :: x in arr ==> Wf(x)) && PackArr(arr, depth).Ok?
    ensures UnpackArr(PackArr(arr, depth).v + rest, |arr|) == Ok((arr, rest))
    decreases arr, 0
  {
    if arr == [] { assert PackArr(arr, depth).v + rest == rest; }
    else {
      var x, y := Pack(arr[0], depth).v, PackArr(arr[1..], depth).v;
      assert PackArr(arr, depth).v + rest == x + (y + rest);
      RoundTrip(arr[0], depth, y + rest);
      ArrRoundTrip(arr[1..], depth, rest);
      assert arr == [arr[0]] + arr[1..];
    }
  }

  lemma {:induction false} HashRoundTrip(hash: seq<Pair>, depth: nat, rest: Bytes)
    requires (forall p :: p in hash ==> Wf(p.k) && Wf(p.v) && p.k != Nil) && PackHash(hash, depth).Ok?
    ensures UnpackHash(PackHash(hash, depth).v + rest) == Ok((hash, rest))
    decreases hash, 0
  {
    if hash == [] {
      var b := PackHash(hash, depth).v + rest;
      assert b[1..] == rest;
      assert Unpack(b) == Ok((Nil, rest));
    } else {
      assert hash[0] in hash;
      var y := PackHash(hash[1..], depth).v;
      assert PackHash(hash, depth).v + rest == PackPair(hash[0], depth).v + (y + rest);
      PairRoundTrip(hash[0], depth, y + rest);
      HashRoundTrip(hash[1..], depth, rest);
      assert hash == [hash[0]] + hash[1..];
    }
  }

  lemma {:induction false} PairRoundTrip(p: Pair, depth: nat, rest: Bytes)
    requires Wf(p.k) && Wf(p.v) && PackPair(p, depth).Ok?
    ensures Unpack(PackPair(p, depth).v + rest) == Ok((p.k, Pack(p.v, depth).v + rest))
    ensures Unpack(Pack(p.v, depth).v + rest) == Ok((p.v, rest))
    decreases p, 0
  {
    var x, y := Pack(p.k, depth).v, Pack(p.v, depth).v;
    assert PackPair(p, depth).v + rest == x + (y + rest);
    RoundTrip(p.k, depth, y + rest);
    RoundTrip(p.v, depth, rest);
  }

  /** Serializing a sequence of values and reading it back gives the sequence. */
  lemma {:induction false} SeqRoundTrip(vs: seq<Value>)
    requires (forall v :: v in vs ==> Wf(v)) && PackAll(vs).Ok?
    ensures UnpackAll(PackAll(vs).v) == Ok(vs)
    decreases |vs|
  {
    if vs != [] {
      var x, y := Pack(vs[0], 0).v, PackAll(vs[1..]).v;
      RoundTrip(vs[0], 0, y);
      SeqRoundTrip(vs[1..]);
      assert vs == [vs[0]] + vs[1..];
    }
  }

  // ---------------------------------------------------------------- when it packs

  /** No unsupported value, and nothing nested deeper than `d` tables. */
  ghost predicate Packable(v: Value, d: int)
    decreases v
  {
    d >= 0 &&
    match v
    case Unsupported => false
    case Table(arr, hash) =>
      (forall x :: x in arr ==> Packable(x, d - 1)) && forall p :: p in hash ==>
        Packable(p.k, d - 1) && Packable(p.v, d - 1)
    case _ => true
  }

  /** Packing raises an error exactly for the other values. */
  lemma {:induction false} PackIff(v: Value, depth: nat)
    requires Wf(v)
    ensures Pack(v, depth).Ok? <==> Packable(v, MAX_DEPTH - depth)
    decreases v, 0
  {
    match v
    case Table(arr, hash) =>
      ArrIff(arr, depth + 1);
      HashIff(hash, depth + 1);
    case _ =>
  }

  lemma {:induction false} ArrIff(arr: seq<Value>, depth: nat)
    requires forall x :: x in arr ==> Wf(x)
    ensures PackArr(arr, depth).Ok? <==> forall x :: x in arr ==> Packable(x, MAX_DEPTH - depth)
    decreases arr, 0
  {
    if arr != [] {
      PackIff(arr[0], depth);
      ArrIff(arr[1..], depth);
      assert forall x :: x in arr <==> x == arr[0] || x in arr[1..];
    }
  }

  lemma {:induction false} HashIff(hash: seq<Pair>, depth: nat)
    requires forall p :: p in hash ==> Wf(p.k) && Wf(p.v)
    ensures PackHash(hash, depth).Ok? <==> forall p :: p in hash ==>
      Packable(p.k, MAX_DEPTH - depth) && Packable(p.v, MAX_DEPTH - depth)
    decreases hash, 0
  {
    if hash != [] {
      PairIff(hash[0], depth);
      HashIff(hash[1..], depth);
      assert forall p :: p in hash <==> p == hash[0] || p in hash[1..];
    }
  }

  lemma {:induction false} PairIff(p: Pair, depth: nat)
    requires Wf(p.k) && Wf(p.v)
    ensures PackPair(p, depth).Ok? <==> Packable(p.k, MAX_DEPTH - depth) && Packable(p.v, MAX_DEPTH - depth)
    decreases p, 0
  {
    PackIff(p.k, depth);
    PackIff(p.v, depth);
  }
}
