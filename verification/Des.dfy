/** DES as lua-crypt.c uses it: the block function for arbitrary round functions
    and subkeys, the blocks of a text, and the padding; decoding undoes
    encoding. */
module Des {
  import opened Common

  type Word = bv32
  type Octet = bv8

  /** What decoding comes to: a text, the error for invalid text, or a read before
      the start of the buffer. */
  datatype Plain = Text(v: seq<Octet>) | Invalid | Outside

  // ------------------------------------------------------------ permutations

  /** The two halves of a block. */
  datatype Halves = Halves(x: Word, y: Word)

  function Swap(h: Halves): Halves { Halves(h.y, h.x) }

  /** The exchange of bits that both permutations are made of, word by word. */
  function FirstOf(x: Word, y: Word, shift: bv6, mask: Word): Word
    requires shift <= 31
  {
    x ^ ((((x >> shift) ^ y) & mask) << shift)
  }

  function SecondOf(x: Word, y: Word, shift: bv6, mask: Word): Word
    requires shift <= 31
  {
    y ^ (((x >> shift) ^ y) & mask)
  }

  function Exchange(h: Halves, shift: bv6, mask: Word): Halves
    requires shift <= 31
  {
    Halves(FirstOf(h.x, h.y, shift, mask), SecondOf(h.x, h.y, shift, mask))
  }

  function Rol(x: Word): Word { (x << 1) | (x >> 31) }

  function Ror(x: Word): Word { (x << 31) | (x >> 1) }

  /** Rotations of one half. */
  function RolX(h: Halves): Halves { Halves(Rol(h.x), h.y) }

  function RorX(h: Halves): Halves { Halves(Ror(h.x), h.y) }

  /** `DES_IP` */
  function Ip(h: Halves): Halves
  {
    var h1 := Exchange(h, 4, 0x0F0F0F0F);
    var h2 := Exchange(h1, 16, 0x0000FFFF);
    var h3 := Exchange(Swap(h2), 2, 0x33333333);
    var h4 := Exchange(h3, 8, 0x00FF00FF);
    RolX(Exchange(Swap(RolX(h4)), 0, 0xAAAAAAAA))
  }

  /** `DES_FP` */
  function Fp(h: Halves): Halves
  {
    var h1 := Exchange(RorX(h), 0, 0xAAAAAAAA);
    var h2 := Exchange(RorX(Swap(h1)), 8, 0x00FF00FF);
    var h3 := Exchange(h2, 2, 0x33333333);
    var h4 := Exchange(Swap(h3), 16, 0x0000FFFF);
    Exchange(h4, 4, 0x0F0F0F0F)
  }

  function Bit(w: Word, n: bv6): Word
    requires n <= 31
  {
    (w >> n) & 1
  }

  /** Eight bits of a word from bit `a` down are bit `b` of the bytes of a block,
      from the last byte to the first. */
  predicate Row(w: Word, a: bv6, x: Word, y: Word, b: bv6)
    requires 7 <= a <= 31 && b <= 7
  {
    && Bit(w, a) == Bit(y, b) && Bit(w, a - 1) == Bit(y, b + 8)
    && Bit(w, a - 2) == Bit(y, b + 16) && Bit(w, a - 3) == Bit(y, b + 24)
    && Bit(w, a - 4) == Bit(x, b) && Bit(w, a - 5) == Bit(x, b + 8)
    && Bit(w, a - 6) == Bit(x, b + 16) && Bit(w, a - 7) == Bit(x, b + 24)
  }

  /** Two exchanges on two words: of nibbles and of half words, ... */
  function NibblesX(x: Word, y: Word): Word
  {
    var t := ((x >> 4) ^ y) & 0x0F0F0F0F;
    var x1, y1 := x ^ (t << 4), y ^ t;
    x1 ^ ((((x1 >> 16) ^ y1) & 0x0000FFFF) << 16)
  }

  function NibblesY(x: Word, y: Word): Word
  {
    var t := ((x >> 4) ^ y) & 0x0F0F0F0F;
    var x1, y1 := x ^ (t << 4), y ^ t;
    y1 ^ (((x1 >> 16) ^ y1) & 0x0000FFFF)
  }

  /** ... and of pairs of bits and of bytes. */
  function PairsX(x: Word, y: Word): Word
  {
    var t := ((x >> 2) ^ y) & 0x33333333;
    var x1, y1 := x ^ (t << 2), y ^ t;
    x1 ^ ((((x1 >> 8) ^ y1) & 0x00FF00FF) << 8)
  }

  function PairsY(x: Word, y: Word): Word
  {
    var t := ((x >> 2) ^ y) & 0x33333333;
    var x1, y1 := x ^ (t << 2), y ^ t;
    y1 ^ (((x1 >> 8) ^ y1) & 0x00FF00FF)
  }

  lemma NibblesWords(x: Word, y: Word)
    ensures var x1, y1 := FirstOf(x, y, 4, 0x0F0F0F0F), SecondOf(x, y, 4, 0x0F0F0F0F);
      NibblesX(x, y) == FirstOf(x1, y1, 16, 0x0000FFFF) && NibblesY(x, y) == SecondOf(x1, y1, 16, 0x0000FFFF)
  {
  }

  lemma PairsWords(x: Word, y: Word)
    ensures var x1, y1 := FirstOf(x, y, 2, 0x33333333), SecondOf(x, y, 2, 0x33333333);
      PairsX(x, y) == FirstOf(x1, y1, 8, 0x00FF00FF) && PairsY(x, y) == SecondOf(x1, y1, 8, 0x00FF00FF)
  {
  }

  lemma NibblesAre(x: Word, y: Word)
    ensures Exchange(Exchange(Halves(x, y), 4, 0x0F0F0F0F), 16, 0x0000FFFF) == Halves(NibblesX(x, y), NibblesY(x, y))
  {
    NibblesWords(x, y);
  }

  lemma PairsAre(x: Word, y: Word)
    ensures Exchange(Exchange(Halves(x, y), 2, 0x33333333), 8, 0x00FF00FF) == Halves(PairsX(x, y), PairsY(x, y))
  {
    PairsWords(x, y);
  }

  /** The halves that the standard calls L and R, rotated. */
  function Left(x: Word, y: Word): Word
  {
    var x2, y2 := NibblesX(x, y), NibblesY(x, y);
    FirstOf(PairsY(y2, x2), Rol(PairsX(y2, x2)), 0, 0xAAAAAAAA)
  }

  function Right(x: Word, y: Word): Word
  {
    var x2, y2 := NibblesX(x, y), NibblesY(x, y);
    SecondOf(PairsY(y2, x2), Rol(PairsX(y2, x2)), 0, 0xAAAAAAAA)
  }

  lemma {:induction false} IpWords(x: Word, y: Word)
    ensures Ip(Halves(x, y)) == Halves(Rol(Left(x, y)), Right(x, y))
  {
    var x2, y2 := NibblesX(x, y), NibblesY(x, y);
    NibblesAre(x, y);
    PairsAre(y2, x2);
  }

  lemma LeftRow1(x: Word, y: Word)
    ensures Row(Left(x, y), 31, x, y, 6)
  {
  }

  lemma LeftRow2(x: Word, y: Word)
    ensures Row(Left(x, y), 23, x, y, 4)
  {
  }

  lemma LeftRow3(x: Word, y: Word)
    ensures Row(Left(x, y), 15, x, y, 2)
  {
  }

  lemma LeftRow4(x: Word, y: Word)
    ensures Row(Left(x, y), 7, x, y, 0)
  {
  }

  lemma RightRow1(x: Word, y: Word)
    ensures Row(Ror(Right(x, y)), 31, x, y, 7)
  {
  }

  lemma RightRow2(x: Word, y: Word)
    ensures Row(Ror(Right(x, y)), 23, x, y, 5)
  {
  }

  lemma RightRow3(x: Word, y: Word)
    ensures Row(Ror(Right(x, y)), 15, x, y, 3)
  {
  }

  lemma RightRow4(x: Word, y: Word)
    ensures Row(Ror(Right(x, y)), 7, x, y, 1)
  {
  }

  lemma RolRor(w: Word)
    ensures Ror(Rol(w)) == w
  {
  }

  /** The table of the initial permutation in FIPS 46-3, row by row; both halves
      are kept rotated left by one bit. */
  lemma {:induction false} IpTable(h: Halves)
    ensures var l := Ror(Ip(h).x);
      Row(l, 31, h.x, h.y, 6) && Row(l, 23, h.x, h.y, 4) && Row(l, 15, h.x, h.y, 2) && Row(l, 7, h.x, h.y, 0)
    ensures var r := Ror(Ip(h).y);
      Row(r, 31, h.x, h.y, 7) && Row(r, 23, h.x, h.y, 5) && Row(r, 15, h.x, h.y, 3) && Row(r, 7, h.x, h.y, 1)
  {
    IpWords(h.x, h.y);
    RolRor(Left(h.x, h.y));
    LeftRow1(h.x, h.y);
    LeftRow2(h.x, h.y);
    LeftRow3(h.x, h.y);
    LeftRow4(h.x, h.y);
    RightRow1(h.x, h.y);
    RightRow2(h.x, h.y);
    RightRow3(h.x, h.y);
    RightRow4(h.x, h.y);
  }

  lemma Exchange4(h: Halves)
    ensures Exchange(Exchange(h, 4, 0x0F0F0F0F), 4, 0x0F0F0F0F) == h
  {
  }

  lemma Exchange16(h: Halves)
    ensures Exchange(Exchange(h, 16, 0x0000FFFF), 16, 0x0000FFFF) == h
  {
  }

  lemma Exchange2(h: Halves)
    ensures Exchange(Exchange(h, 2, 0x33333333), 2, 0x33333333) == h
  {
  }

  lemma Exchange8(h: Halves)
    ensures Exchange(Exchange(h, 8, 0x00FF00FF), 8, 0x00FF00FF) == h
  {
  }

  lemma Exchange0(h: Halves)
    ensures Exchange(Exchange(h, 0, 0xAAAAAAAA), 0, 0xAAAAAAAA) == h
  {
  }

  lemma Rotations(h: Halves)
    ensures RolX(RorX(h)) == h && RorX(RolX(h)) == h
  {
  }

  /** The final permutation undoes the initial one. */
  lemma {:induction false} FpIp(h: Halves)
    ensures Fp(Ip(h)) == h
  {
    var h1 := Exchange(h, 4, 0x0F0F0F0F);
    var h2 := Exchange(h1, 16, 0x0000FFFF);
    var h3 := Exchange(Swap(h2), 2, 0x33333333);
    var h4 := Exchange(h3, 8, 0x00FF00FF);
    var h5 := Exchange(Swap(RolX(h4)), 0, 0xAAAAAAAA);
    Rotations(h5);
    Exchange0(Swap(RolX(h4)));
    Rotations(h4);
    Exchange8(h3);
    Exchange2(Swap(h2));
    Exchange16(h1);
    Exchange4(h);
  }

  /** ... and the initial one the final one. */
  lemma {:induction false} IpFp(h: Halves)
    ensures Ip(Fp(h)) == h
  {
    var h1 := Exchange(RorX(h), 0, 0xAAAAAAAA);
    var h2 := Exchange(RorX(Swap(h1)), 8, 0x00FF00FF);
    var h3 := Exchange(h2, 2, 0x33333333);
    var h4 := Exchange(Swap(h3), 16, 0x0000FFFF);
    Exchange4(h4);
    Exchange16(Swap(h3));
    Exchange2(h2);
    Exchange8(RorX(Swap(h1)));
    Rotations(Swap(h1));
    Exchange0(RorX(h));
    Rotations(h);
  }

  // ------------------------------------------------------------------- rounds

  /** The two subkeys of one round. */
  datatype Keys = Keys(a: Word, b: Word)

  /** What a round makes of its subkeys and one half. */
  type Round = (Keys, Word) -> Word

  /** `DES_ROUND` for all subkeys: the halves change roles after every round. */
  function Rounds(f: Round, ks: seq<Keys>, h: Halves): Halves
    decreases |ks|
  {
    if ks == [] then h else Rounds(f, ks[1..], OneRound(f, ks[0], h))
  }

  function OneRound(f: Round, k: Keys, h: Halves): Halves { Halves(h.y, Mix(h.x, f(k, h.y))) }

  function Mix(x: Word, v: Word): Word { x ^ v }

  function Reverse(ks: seq<Keys>): (r: seq<Keys>)
    ensures |r| == |ks|
  {
    if ks == [] then [] else Reverse(ks[1..]) + [ks[0]]
  }

  lemma {:induction false} RoundsSnoc(f: Round, ks: seq<Keys>, k: Keys, h: Halves)
    ensures Rounds(f, ks + [k], h) == OneRound(f, k, Rounds(f, ks, h))
    decreases |ks|
  {
    if ks == [] {
      assert ks + [k] == [k];
      assert Rounds(f, [k][1..], OneRound(f, k, h)) == OneRound(f, k, h);
    } else {
      assert (ks + [k])[1..] == ks[1..] + [k];
      RoundsSnoc(f, ks[1..], k, OneRound(f, ks[0], h));
    }
  }

  /** The words of the standard's recurrence: each is the last but one, mixed with
      the round function of the last. */
  ghost predicate Feistel(f: Round, ks: seq<Keys>, words: seq<Word>)
  {
    && |words| == |ks| + 2
    && forall i :: 0 <= i < |ks| ==> words[i + 2] == words[i] ^ f(ks[i], words[i + 1])
  }

  /** The rounds end with the last two words of the recurrence. */
  lemma {:induction false} RoundsFeistel(f: Round, ks: seq<Keys>, words: seq<Word>)
    requires Feistel(f, ks, words)
    ensures Rounds(f, ks, Halves(words[0], words[1])) == Halves(words[|ks|], words[|ks| + 1])
    decreases |ks|
  {
    if ks != [] {
      var rest := words[1..];
      forall i | 0 <= i < |ks[1..]| ensures rest[i + 2] == rest[i] ^ f(ks[1..][i], rest[i + 1]) {
        assert words[(i + 1) + 2] == words[i + 1] ^ f(ks[i + 1], words[(i + 1) + 1]);
      }
      RoundsFeistel(f, ks[1..], rest);
      assert words[0 + 2] == words[0] ^ f(ks[0], words[0 + 1]);
    }
  }

  lemma MixTwice(a: Word, b: Word)
    ensures Mix(Mix(a, b), b) == a
  {
  }

  /** A round on swapped halves undoes the round. */
  lemma {:induction false} RoundUndo(f: Round, k: Keys, h: Halves)
    ensures OneRound(f, k, Swap(OneRound(f, k, h))) == Swap(h)
  {
    MixTwice(h.x, f(k, h.y));
  }

  /** Reversed subkeys undo the rounds, whatever the round function does. */
  lemma {:induction false} RoundsUndo(f: Round, ks: seq<Keys>, h: Halves)
    ensures Rounds(f, Reverse(ks), Swap(Rounds(f, ks, h))) == Swap(h)
    decreases |ks|
  {
    if ks != [] {
      var h1 := OneRound(f, ks[0], h);
      RoundsUndo(f, ks[1..], h1);
      RoundsSnoc(f, Reverse(ks[1..]), ks[0], Swap(Rounds(f, ks[1..], h1)));
      RoundUndo(f, ks[0], h);
    }
  }

  // ------------------------------------------------------------------- blocks

  type Block = b: seq<Octet> | |b| == 8 witness [0, 0, 0, 0, 0, 0, 0, 0]

  /** `GET_UINT32` */
  function Get(b0: Octet, b1: Octet, b2: Octet, b3: Octet): Word
  {
    ((b0 as Word) << 24) | ((b1 as Word) << 16) | ((b2 as Word) << 8) | (b3 as Word)
  }

  /** `PUT_UINT32` */
  function Put(n: Word): seq<Octet>
  {
    [((n >> 24) & 0xFF) as Octet, ((n >> 16) & 0xFF) as Octet, ((n >> 8) & 0xFF) as Octet, (n & 0xFF) as Octet]
  }

  lemma GetPut(n: Word)
    ensures var p := Put(n); Get(p[0], p[1], p[2], p[3]) == n
  {
  }

  lemma PutGet(b0: Octet, b1: Octet, b2: Octet, b3: Octet)
    ensures Put(Get(b0, b1, b2, b3)) == [b0, b1, b2, b3]
  {
  }

  function Read(b: Block): Halves
  {
    Halves(Get(b[0], b[1], b[2], b[3]), Get(b[4], b[5], b[6], b[7]))
  }

  function Write(h: Halves): Block { Put(h.x) + Put(h.y) }

  /** `des_crypt` */
  function Crypt(f: Round, ks: seq<Keys>, b: Block): Block
  {
    Write(Fp(Swap(Rounds(f, ks, Ip(Read(b))))))
  }

  lemma {:induction false} ReadWrite(h: Halves)
    ensures Read(Write(h)) == h
  {
    GetPut(h.x);
    GetPut(h.y);
  }

  lemma {:induction false} WriteRead(b: Block)
    ensures Write(Read(b)) == b
  {
    PutGet(b[0], b[1], b[2], b[3]);
    PutGet(b[4], b[5], b[6], b[7]);
  }

  /** Decrypting a block undoes encrypting it. */
  lemma {:induction false} CryptUndo(f: Round, ks: seq<Keys>, b: Block)
    ensures Crypt(f, Reverse(ks), Crypt(f, ks, b)) == b
  {
    var h := Ip(Read(b));
    var r := Swap(Rounds(f, ks, h));
    ReadWrite(Fp(r));
    IpFp(r);
    RoundsUndo(f, ks, h);
    FpIp(Read(b));
    WriteRead(b);
  }

  // -------------------------------------------------------------------- texts

  /** A cipher for one block. */
  type Cipher = Block -> Block

  /** A text, block by block. */
  function CryptAll(c: Cipher, t: seq<Octet>): (r: seq<Octet>)
    requires |t| % 8 == 0
    ensures |r| == |t|
    decreases |t|
  {
    if t == [] then [] else c(t[..8]) + CryptAll(c, t[8..])
  }

  lemma {:induction false} CryptAllUndo(c: Cipher, d: Cipher, t: seq<Octet>)
    requires |t| % 8 == 0 && forall b: Block :: d(c(b)) == b
    ensures CryptAll(d, CryptAll(c, t)) == t
    decreases |t|
  {
    if t != [] {
      var first: seq<Octet> := c(t[..8]);
      var rest: seq<Octet> := CryptAll(c, t[8..]);
      assert (first + rest)[..8] == first && (first + rest)[8..] == rest;
      CryptAllUndo(c, d, t[8..]);
    }
  }

  /** `des_crypt` with fixed subkeys */
  function Des(f: Round, ks: seq<Keys>): Cipher
  {
    (b: Block) => Crypt(f, ks, b)
  }

  lemma {:induction false} DesUndo(f: Round, ks: seq<Keys>)
    ensures forall b: Block :: Des(f, Reverse(ks))(Des(f, ks)(b)) == b
  {
    forall b: Block ensures Des(f, Reverse(ks))(Des(f, ks)(b)) == b { CryptUndo(f, ks, b); }
  }

  function Zeros(n: nat): (z: seq<Octet>)
    ensures |z| == n && forall i :: 0 <= i < n ==> z[i] == 0
  {
    seq(n, _ => 0)
  }

  /** ISO/IEC 9797-1 padding method 2: one 0x80, then zeros to a full block. */
  function Pad(t: seq<Octet>): (p: seq<Octet>)
    ensures |p| % 8 == 0 && |t| < |p| <= |t| + 8
  {
    t + [0x80] + Zeros(7 - |t| % 8)
  }

  /** Removing the padding; `n` bytes of the last block have been looked at.  The
      end of the loop compares as unsigned numbers, so that a single block of
      zeros is not where it ends. */
  function UnpadFrom(p: seq<Octet>, n: nat): Plain
    requires |p| >= 8 && n <= 8
    decreases 8 - n
  {
    if n == 8 then (if |p| == 8 then Outside else Invalid)
    else if p[|p| - 1 - n] == 0 then UnpadFrom(p, n + 1)
    else if p[|p| - 1 - n] == 0x80 then Text(p[..|p| - 1 - n])
    else Invalid
  }

  /** The loop leaves the buffer exactly for a single block of zeros. */
  lemma {:induction false} UnpadOutside(p: seq<Octet>, n: nat)
    requires |p| >= 8 && n <= 8 && forall i :: |p| - n <= i < |p| ==> p[i] == 0
    ensures UnpadFrom(p, n).Outside? <==> p == Zeros(8)
    decreases 8 - n
  {
    if n == 8 {
      if |p| == 8 { assert p == Zeros(8); }
    } else if p[|p| - 1 - n] == 0 {
      UnpadOutside(p, n + 1);
    }
  }

  lemma {:induction false} UnpadZeros(t: seq<Octet>, n: nat)
    requires n <= 7 - |t| % 8
    ensures UnpadFrom(Pad(t), n) == Text(t)
    decreases 8 - n
  {
    var p := Pad(t);
    if n < 7 - |t| % 8 { UnpadZeros(t, n + 1); }
    else { assert p[..|t|] == t; }
  }

  /** The padding is recognised exactly: what is found is what was padded. */
  lemma {:induction false} UnpadExact(p: seq<Octet>, n: nat)
    requires |p| >= 8 && |p| % 8 == 0 && n <= 8 && forall i :: |p| - n <= i < |p| ==> p[i] == 0
    ensures match UnpadFrom(p, n)
            case Text(t) => p == Pad(t)
            case _ => forall t :: |t| % 8 + n <= 7 ==> p != Pad(t)
    decreases 8 - n
  {
    if n < 8 {
      var c := p[|p| - 1 - n];
      if c == 0 {
        UnpadExact(p, n + 1);
        if !UnpadFrom(p, n).Text? {
          forall t | |t| % 8 + n <= 7 ensures p != Pad(t) { LastOfPad(t, p, n); }
        }
      } else if c == 0x80 {
        var t := p[..|p| - 1 - n];
        assert p == Pad(t);
      } else {
        forall t | |t| % 8 + n <= 7 ensures p != Pad(t) { LastOfPad(t, p, n); }
      }
    }
  }

  /** Behind the 0x80 of a padded text are zeros. */
  lemma {:induction false} LastOfPad(t: seq<Octet>, p: seq<Octet>, n: nat)
    requires |t| % 8 + n <= 7 && |p| >= 8
    ensures p == Pad(t) ==> p[|p| - 1 - n] == if |t| % 8 + n == 7 then 0x80 else 0
  {
  }

  // ---------------------------------------------------- ldesencode, ldesdecode

  /** `ldesencode`, for a given key schedule. */
  function Encode(f: Round, schedule: seq<Octet> -> seq<Keys>, key: seq<Octet>, text: seq<Octet>): Result<seq<Octet>>
  {
    if |key| != 8 then Error else Ok(CryptAll(Des(f, schedule(key)), Pad(text)))
  }

  /** `ldesdecode` */
  function Decode(f: Round, schedule: seq<Octet> -> seq<Keys>, key: seq<Octet>, text: seq<Octet>): Plain
  {
    if |key| != 8 || |text| % 8 != 0 || |text| == 0 then Invalid
    else UnpadFrom(CryptAll(Des(f, Reverse(schedule(key))), text), 0)
  }

  /** For every key of eight bytes and every text, decoding what was encoded
      gives the text; for every round function and key schedule. */
  lemma {:induction false} DesRoundTrip(f: Round, schedule: seq<Octet> -> seq<Keys>, key: seq<Octet>, text: seq<Octet>)
    requires |key| == 8
    ensures Encode(f, schedule, key, text).Ok?
    ensures Decode(f, schedule, key, Encode(f, schedule, key, text).v) == Text(text)
  {
    var ks := schedule(key);
    DesUndo(f, ks);
    CryptAllUndo(Des(f, ks), Des(f, Reverse(ks)), Pad(text));
    UnpadZeros(text, 0);
  }

  /** Decoding accepts only what encoding makes, and gives its text. */
  lemma {:induction false} DecodeExact(f: Round, schedule: seq<Octet> -> seq<Keys>, key: seq<Octet>, c: seq<Octet>)
    requires |key| == 8 && Decode(f, schedule, key, c).Text?
    ensures Encode(f, schedule, key, Decode(f, schedule, key, c).v) == Ok(c)
  {
    var ks := schedule(key);
    var p := CryptAll(Des(f, Reverse(ks)), c);
    UnpadExact(p, 0);
    ReverseTwice(ks);
    DesUndo(f, Reverse(ks));
    CryptAllUndo(Des(f, Reverse(ks)), Des(f, ks), c);
  }

  /** Decoding stays inside its buffer if and only if the text is not a single
      block that decrypts to zeros. */
  lemma {:induction false} OutsideIff(f: Round, schedule: seq<Octet> -> seq<Keys>, key: seq<Octet>, c: seq<Octet>)
    requires |key| == 8
    ensures Decode(f, schedule, key, c).Outside? <==>
      |c| == 8 && CryptAll(Des(f, Reverse(schedule(key))), c) == Zeros(8)
  {
    if |c| % 8 == 0 && |c| > 0 { UnpadOutside(CryptAll(Des(f, Reverse(schedule(key))), c), 0); }
  }

  /** For every key there is such a block. */
  lemma {:induction false} OutsideBlock(f: Round, schedule: seq<Octet> -> seq<Keys>, key: seq<Octet>)
    returns (c: seq<Octet>)
    requires |key| == 8
    ensures |c| == 8 && Decode(f, schedule, key, c).Outside?
  {
    var ks := schedule(key);
    c := CryptAll(Des(f, ks), Zeros(8));
    DesUndo(f, ks);
    CryptAllUndo(Des(f, ks), Des(f, Reverse(ks)), Zeros(8));
    OutsideIff(f, schedule, key, c);
  }

  lemma {:induction false} ReverseSnoc(ks: seq<Keys>, k: Keys)
    ensures Reverse(ks + [k]) == [k] + Reverse(ks)
    decreases |ks|
  {
    if ks == [] { assert ks + [k] == [k] && Reverse([k][1..]) == []; }
    else {
      assert (ks + [k])[1..] == ks[1..] + [k];
      ReverseSnoc(ks[1..], k);
    }
  }

  lemma {:induction false} ReverseTwice(ks: seq<Keys>)
    ensures Reverse(Reverse(ks)) == ks
    decreases |ks|
  {
    if ks != [] {
      ReverseSnoc(Reverse(ks[1..]), ks[0]);
      ReverseTwice(ks[1..]);
    }
  }

  // ------------------------------------------------------------------- in place

  lemma {:induction false} CryptAllSnoc(c: Cipher, t: seq<Octet>, b: Block)
    requires |t| % 8 == 0
    ensures CryptAll(c, t + b) == CryptAll(c, t) + c(b)
    decreases |t|
  {
    var tb: seq<Octet> := t + b;
    if t == [] {
      assert tb == b && tb[..8] == b && tb[8..] == [];
    } else {
      assert tb[..8] == t[..8] && tb[8..] == t[8..] + b;
      CryptAllSnoc(c, t[8..], b);
    }
  }

  /** `des_crypt` into a buffer. */
  method CryptInto(c: Cipher, b: Block, buffer: array<Octet>, i: nat)
    requires i + 8 <= buffer.Length
    modifies buffer
    ensures buffer[..i] == old(buffer[..i]) && buffer[i..i + 8] == c(b) && buffer[..i + 8] == old(buffer[..i]) + c(b)
  {
    var out := c(b);
    for j := 0 to 8
      invariant buffer[..i] == old(buffer[..i]) && forall k :: 0 <= k < j ==> buffer[i + k] == out[k]
    {
      buffer[i + j] := out[j];
    }
    assert buffer[i..i + 8] == out;
    assert buffer[..i + 8] == buffer[..i] + buffer[i..i + 8];
  }

  /** The last block: the rest of the text, 0x80, zeros. */
  method Tail(text: seq<Octet>, i: nat) returns (tail: Block)
    requires i % 8 == 0 && i <= |text| < i + 8
    ensures text[..i] + tail == Pad(text)
  {
    var bytes := |text| - i;
    var t: seq<Octet> := [];
    for j := 0 to 8
      invariant |t| == j && forall k :: 0 <= k < j ==> t[k] == if k < bytes then text[i + k]
        else if k == bytes then 0x80 else 0
    {
      t := t + [if j < bytes then text[i + j] else if j == bytes then 0x80 else 0];
    }
    tail := t;
    assert |text| % 8 == bytes;
  }

  lemma {:induction false} NextBlock(c: Cipher, text: seq<Octet>, i: nat)
    requires i % 8 == 0 && i + 8 <= |text|
    ensures CryptAll(c, text[..i + 8]) == CryptAll(c, text[..i]) + c(text[i..i + 8])
  {
    CryptAllSnoc(c, text[..i], text[i..i + 8]);
    assert text[..i + 8] == text[..i] + text[i..i + 8];
  }

  /** The full blocks of a text. */
  method CryptBlocks(c: Cipher, text: seq<Octet>, buffer: array<Octet>) returns (i: nat)
    requires |text| <= buffer.Length
    modifies buffer
    ensures i % 8 == 0 && i <= |text| < i + 8 && buffer[..i] == CryptAll(c, text[..i])
  {
    i := 0;
    while i < |text| - 7
      invariant i % 8 == 0 && i <= |text| && buffer[..i] == CryptAll(c, text[..i])
    {
      NextBlock(c, text, i);
      CryptInto(c, text[i..i + 8], buffer, i);
      i := i + 8;
    }
  }

  /** `ldesencode` */
  method DesEncode(c: Cipher, text: seq<Octet>) returns (buffer: array<Octet>)
    ensures fresh(buffer) && buffer[..] == CryptAll(c, Pad(text))
  {
    var chunksz := (|text| + 8) / 8 * 8;
    buffer := new Octet[chunksz];
    var i := CryptBlocks(c, text, buffer);
    assert i + 8 == chunksz;
    var tail := Tail(text, i);
    CryptInto(c, tail, buffer, i);
    CryptAllSnoc(c, text[..i], tail);
    assert buffer[..i + 8] == buffer[..];
  }

  /** `ldesdecode`, with the subkeys already reversed. */
  method DesDecode(c: Cipher, text: seq<Octet>) returns (r: Plain)
    requires |text| < SIZE
    ensures r == if |text| % 8 != 0 || |text| == 0 then Invalid else UnpadFrom(CryptAll(c, text), 0)
  {
    if |text| % 8 != 0 || |text| == 0 { return Invalid; }
    var buffer := new Octet[|text|];
    var n := CryptBlocks(c, text, buffer);
    assert n == |text| && text[..n] == text && buffer[..n] == buffer[..];
    r := Unpad(buffer[..]);
  }

  const SIZE: int := 0x1_0000_0000_0000_0000

  /** An `int` compared with a `size_t`. */
  function AsSize(i: int): int
    requires -SIZE < i < SIZE
  {
    if i < 0 then i + SIZE else i
  }

  /** The loop of `ldesdecode` over the last block. */
  method Unpad(p: seq<Octet>) returns (r: Plain)
    requires 8 <= |p| < SIZE && |p| % 8 == 0
    ensures r == UnpadFrom(p, 0)
  {
    var padding := 1;
    var i := |p| - 1;
    while AsSize(i) >= |p| - 8
      invariant |p| - 9 <= i < |p| && padding == |p| - i && UnpadFrom(p, padding - 1) == UnpadFrom(p, 0)
      decreases i + 1
    {
      if i < 0 { return Outside; }
      if p[i] == 0 { padding := padding + 1; }
      else if p[i] == 0x80 { break; }
      else { return Invalid; }
      i := i - 1;
    }
    if padding > 8 { return Invalid; }
    r := Text(p[..|p| - padding]);
  }
}
