/** The serializer writes the shortest form: no stream that `luaseri_unpack` reads
    as a value is shorter than what `pack_one` writes for it. */
module LuaSeriShortest {
  import opened Common
  import opened LuaSeri

  /** The high byte comes last. */
  lemma {:induction false} HighLast(b: Bytes, x: Byte)
    ensures FromLe(b + [x]) == FromLe(b) + x * Pow256(|b|)
    decreases |b|
  {
    var all := b + [x];
    if b == [] {
      assert FromLe(all[1..]) == 0;
    } else {
      assert all[1..] == b[1..] + [x] && all[0] == b[0];
      HighLast(b[1..], x);
      Scaled(x, Pow256(|b| - 1));
    }
  }

  lemma Scaled(x: int, p: int)
    ensures 256 * (x * p) == x * (256 * p)
  {
  }

  lemma {:induction false} LeFromLe(b: Bytes)
    ensures FromLe(b) < Pow256(|b|) && Le(FromLe(b), |b|) == b
    decreases |b|
  {
    if b != [] {
      LeFromLe(b[1..]);
      assert b == [b[0]] + b[1..];
      assert FromLe(b) % 256 == b[0] && FromLe(b) / 256 == FromLe(b[1..]);
    }
  }

  /** Whatever reads as an integer is at least as long as what is written for
      it, and as long only if it is the same. */
  lemma {:induction false} IntShortest(b: Bytes, rest: Bytes, v: int)
    requires |b| > 0 && b[0] % 8 == TYPE_NUMBER && GetInt(b[1..], b[0] / 8) == Ok((v, rest))
    ensures -P63 <= v < P63 && |PackInt(v)| + |rest| <= |b|
    ensures |PackInt(v)| + |rest| == |b| ==> b == PackInt(v) + rest
  {
    Pow256Values();
    var cookie := b[0] / 8;
    var n := if cookie == TYPE_NUMBER_BYTE then 1 else if cookie == TYPE_NUMBER_WORD then 2
             else if cookie == TYPE_NUMBER_DWORD then 4 else 8;
    if cookie == TYPE_NUMBER_ZERO {
      assert b == [b[0]] + b[1..];
    } else {
      var x := b[1..][..n];
      LeFromLe(x);
      assert b[1..] == x + rest;
      assert b == [b[0]] + x + rest;
    }
  }

  lemma {:induction false} TableKind(b: Bytes, cookie: int)
    requires UnpackTable(b, cookie).Ok?
    ensures UnpackTable(b, cookie).v.0.Table?
  {
  }

  /** What the first byte of a value can be. */
  lemma {:induction false} Kinds(b: Bytes, v: Value, rest: Bytes)
    requires Unpack(b) == Ok((v, rest))
    ensures var t, cookie := b[0] % 8, b[0] / 8;
      && (v.Int? ==> t == TYPE_NUMBER && GetInt(b[1..], cookie) == Ok((v.i, rest)))
      && (v.Str? ==> t == TYPE_SHORT_STRING || (t == TYPE_LONG_STRING && (cookie == 2 || cookie == 4)))
      && (v.Real? || v.Pointer? ==> |b| == |rest| + 9)
      && (v.Table? ==> UnpackTable(b[1..], cookie) == Ok((v, rest)))
  {
    var t, cookie := b[0] % 8, b[0] / 8;
    assert PushValue(b[1..], t, cookie) == Ok((v, rest));
    if t == TYPE_TABLE { TableKind(b[1..], cookie); }
  }

  lemma {:induction false} ShortShortest(c: Byte, s: Bytes, rest: Bytes)
    requires c == Combine(TYPE_SHORT_STRING, |s| % 32) && |s| < MAX_COOKIE
    ensures [c] + (s + rest) == PackStr(s) + rest
  {
  }

  /** A longer field for the length makes a longer stream. */
  lemma {:induction false} LongShortest(c: Byte, x: Bytes, s: Bytes)
    requires c == Combine(TYPE_LONG_STRING, |x| % 32) && (|x| == 2 || |x| == 4) && FromLe(x) == |s| < P31
    ensures |PackStr(s)| <= 1 + |x| + |s|
    ensures |PackStr(s)| == 1 + |x| + |s| ==> PackStr(s) == [c] + x + s
  {
    Pow256Values();
    LeFromLe(x);
    if |x| == 2 { assert |s| < 0x10000; }
  }

  lemma {:induction false} Regrouped(c: Byte, x: Bytes, s: Bytes, rest: Bytes)
    ensures [c] + (x + (s + rest)) == [c] + x + s + rest
  {
  }

  /** The same for strings ... */
  lemma {:induction false} StrShortest(b: Bytes, rest: Bytes, s: Bytes)
    requires Unpack(b) == Ok((Str(s), rest))
    ensures |s| < P31 && |PackStr(s)| + |rest| <= |b|
    ensures |PackStr(s)| + |rest| == |b| ==> b == PackStr(s) + rest
  {
    Kinds(b, Str(s), rest);
    var t, cookie := b[0] % 8, b[0] / 8;
    assert b == [b[0]] + b[1..];
    if t == TYPE_SHORT_STRING {
      LongRead(b[1..], cookie, s, rest);
      ShortShortest(b[0], s, rest);
    } else {
      var x, tail := b[1..][..cookie], b[1..][cookie..];
      assert b[1..] == x + tail;
      LongRead(tail, ToInt(FromLe(x)), s, rest);
      Pow256Values();
      LeFromLe(x);
      LongShortest(b[0], x, s);
      Regrouped(b[0], x, s, rest);
    }
  }

  lemma {:induction false} LongRead(tail: Bytes, n: int, s: Bytes, rest: Bytes)
    requires GetBuffer(tail, n) == Ok((Str(s), rest))
    ensures n == |s| && tail == s + rest
  {
  }

  /** ... and for the head of a table. */
  lemma {:induction false} SizeShortest(b: Bytes, rest: Bytes, n: nat)
    requires |b| > 0 && n < P31 && GetSize(b[1..], b[0] / 8) == Ok((n, rest))
    ensures |PackSize(n)| + |rest| <= |b|
  {
    if b[0] / 8 == MAX_COOKIE - 1 {
      var c := b[1..];
      var i := GetInt(c[1..], c[0] / 8).v.0;
      IntShortest(c, rest, i);
      if -P31 <= i < P31 {
        assert i == n;
      } else {
        assert |PackInt(i)| == 9;
        assert |PackInt(n)| <= 5;
      }
    }
  }

  /** Of all streams that read as a value, none is shorter than the one written. */
  lemma {:induction false} PackShortest(v: Value, depth: nat, b: Bytes, rest: Bytes)
    requires Wf(v) && Pack(v, depth).Ok? && Unpack(b) == Ok((v, rest))
    ensures |Pack(v, depth).v| + |rest| <= |b|
    decreases v, 0
  {
    Kinds(b, v, rest);
    match v
    case Int(i) => IntShortest(b, rest, i);
    case Str(s) => StrShortest(b, rest, s);
    case Table(arr, hash) => TableShortest(v, arr, hash, depth, b, rest);
    case _ =>
  }

  lemma {:induction false} TableShortest(v: Value, arr: seq<Value>, hash: seq<Pair>, depth: nat, b: Bytes, rest: Bytes)
    requires v == Table(arr, hash) && Wf(v) && Pack(v, depth).Ok? && Unpack(b) == Ok((v, rest))
    ensures |Pack(v, depth).v| + |rest| <= |b|
    decreases v, 0, 0
  {
    Kinds(b, v, rest);
    var n, b1 := GetSize(b[1..], b[0] / 8).v.0, GetSize(b[1..], b[0] / 8).v.1;
    var b2 := UnpackArr(b1, n).v.1;
    ArrLength(b1, n, arr, b2);
    HeadShortest(b, b1, n, |arr|);
    ArrShortest(arr, depth + 1, b1, n, b2);
    HashShortest(hash, depth + 1, b2, rest);
  }

  /** A size below zero stands for an empty array part. */
  lemma {:induction false} HeadShortest(b: Bytes, rest: Bytes, n: int, m: nat)
    requires |b| > 0 && m < P31 && GetSize(b[1..], b[0] / 8) == Ok((n, rest)) && m == if n < 0 then 0 else n
    ensures |PackSize(m)| + |rest| <= |b|
  {
    if n >= 0 { SizeShortest(b, rest, n); }
  }

  lemma {:induction false} ArrLength(b: Bytes, n: int, arr: seq<Value>, rest: Bytes)
    requires UnpackArr(b, n) == Ok((arr, rest))
    ensures |arr| == if n < 0 then 0 else n
    decreases n
  {
    if n > 0 {
      var b1 := Unpack(b).v.1;
      ArrLength(b1, n - 1, UnpackArr(b1, n - 1).v.0, rest);
    }
  }

  lemma {:induction false} ArrShortest(arr: seq<Value>, depth: nat, b: Bytes, n: int, rest: Bytes)
    requires (forall x :: x in arr ==> Wf(x)) && PackArr(arr, depth).Ok? && UnpackArr(b, n) == Ok((arr, rest))
    ensures |PackArr(arr, depth).v| + |rest| <= |b|
    decreases arr, 0
  {
    if n > 0 {
      var b1 := Unpack(b).v.1;
      var vs := UnpackArr(b1, n - 1).v.0;
      assert arr == [arr[0]] + vs && arr[1..] == vs;
      PackShortest(arr[0], depth, b, b1);
      ArrShortest(arr[1..], depth, b1, n - 1, rest);
    }
  }

  lemma {:induction false} HashShortest(hash: seq<Pair>, depth: nat, b: Bytes, rest: Bytes)
    requires (forall p :: p in hash ==> Wf(p.k) && Wf(p.v)) && PackHash(hash, depth).Ok?
    requires UnpackHash(b) == Ok((hash, rest))
    ensures |PackHash(hash, depth).v| + |rest| <= |b|
    decreases hash, 0
  {
    var k, b1 := Unpack(b).v.0, Unpack(b).v.1;
    if k != Nil {
      var v, b2 := Unpack(b1).v.0, Unpack(b1).v.1;
      var ps := UnpackHash(b2).v.0;
      assert hash == [Pair(k, v)] + ps && hash[1..] == ps && hash[0] in hash;
      PairShortest(hash[0], depth, b, b1, b2);
      HashShortest(hash[1..], depth, b2, rest);
    }
  }

  lemma {:induction false} PairShortest(p: Pair, depth: nat, b: Bytes, b1: Bytes, b2: Bytes)
    requires Wf(p.k) && Wf(p.v) && PackPair(p, depth).Ok?
    requires Unpack(b) == Ok((p.k, b1)) && Unpack(b1) == Ok((p.v, b2))
    ensures |PackPair(p, depth).v| + |b2| <= |b|
    decreases p, 0
  {
    PackShortest(p.k, depth, b, b1);
    PackShortest(p.v, depth, b1, b2);
  }
}
