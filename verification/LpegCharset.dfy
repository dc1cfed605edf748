/** Character sets as LPeg stores them, 256 bits in 32 bytes, and the loop of
    `charsettype` that classifies one while looking at each byte once. */
module LpegCharset {
  import opened LpegTree
  import opened LpegCode

  type Bits = b: seq<bv8> | |b| == 32 witness seq(32, _ => 0)

  predicate Bit(b: bv8, k: nat)
    requires k < 8
  {
    match k
    case 0 => b & 0x01 != 0
    case 1 => b & 0x02 != 0
    case 2 => b & 0x04 != 0
    case 3 => b & 0x08 != 0
    case 4 => b & 0x10 != 0
    case 5 => b & 0x20 != 0
    case 6 => b & 0x40 != 0
    case _ => b & 0x80 != 0
  }

  predicate Has(cs: Bits, c: Byte)
  {
    Bit(cs[c / 8], c % 8)
  }

  /** The characters of a set. */
  function Members(cs: Bits): Charset
  {
    set c: Byte | 0 <= c < 256 && Has(cs, c)
  }

  lemma {:induction false} HasBit(cs: Bits, i: nat, k: nat)
    requires i < 32 && k < 8
    ensures 0 <= 8 * i + k < 256 && (Bit(cs[i], k) <==> 8 * i + k in Members(cs))
  {
    assert (8 * i + k) / 8 == i && (8 * i + k) % 8 == k;
  }

  // ---------------------------------------------------------------------- bytes

  /** The bisection that finds the bit of a byte with one bit. */
  function BitNumber(b: bv8): (k: nat)
    ensures k < 8
  {
    var (c4, b4) := if b & 0xF0 != 0 then (4, b >> 4) else (0, b);
    var (c2, b2) := if b4 & 0x0C != 0 then (2, b4 >> 2) else (0, b4);
    c4 + c2 + if b2 & 0x02 != 0 then 1 else 0
  }

  lemma {:induction false} OneBit(b: bv8, k: nat)
    requires b != 0 && b & (b - 1) == 0 && k < 8
    ensures Bit(b, k) <==> k == BitNumber(b)
  {
    assert b == 0x01 || b == 0x02 || b == 0x04 || b == 0x08 || b == 0x10 || b == 0x20 || b == 0x40 || b == 0x80;
  }

  lemma {:induction false} ManyBits(b: bv8) returns (j: nat, k: nat)
    requires b != 0 && b & (b - 1) != 0
    ensures j < k < 8 && Bit(b, j) && Bit(b, k)
  {
    j := FirstBit(b);
    k := FirstBit(b & (b - 1));
    ClearsFirst(b, j);
    ClearsOnly(b, k);
  }

  /** The lowest bit of a byte. */
  function FirstBit(b: bv8): (k: nat)
    requires b != 0
    ensures k < 8 && Bit(b, k) && forall j :: 0 <= j < k ==> !Bit(b, j)
  {
    if b & 0x01 != 0 then 0 else if b & 0x02 != 0 then 1 else if b & 0x04 != 0 then 2 else if b & 0x08 != 0 then 3
    else if b & 0x10 != 0 then 4 else if b & 0x20 != 0 then 5 else if b & 0x40 != 0 then 6 else 7
  }

  lemma {:induction false} ClearsFirst(b: bv8, k: nat)
    requires b != 0 && k == FirstBit(b)
    ensures !Bit(b & (b - 1), k)
  {
  }

  lemma {:induction false} ClearsOnly(b: bv8, k: nat)
    requires k < 8
    ensures Bit(b & (b - 1), k) ==> Bit(b, k)
  {
  }

  lemma {:induction false} GapBit(b: bv8) returns (k: nat)
    requires b != 0xFF
    ensures k < 8 && !Bit(b, k)
  {
    k := FirstBit(!b);
  }

  lemma {:induction false} FullByte(k: nat)
    requires k < 8
    ensures Bit(0xFF, k) && !Bit(0, k)
  {
  }

  // ----------------------------------------------------------------------- sets

  /** A set with two members that lacks a character is of no special kind. */
  lemma {:induction false} OtherSet(cs: Bits, x: Byte, y: Byte, z: Byte)
    requires x != y && x in Members(cs) && y in Members(cs) && z !in Members(cs)
    ensures CharsetType(Members(cs)) == KSet
  {
    var s := Members(cs);
    assert |s - {x, y}| == |s| - 2;
    assert z in FULL;
  }

  lemma {:induction false} SingleSet(s: Charset, c: Byte)
    requires s == {c}
    ensures CharsetType(s) == KChar(c)
  {
  }

  lemma {:induction false} FullSet(s: Charset)
    requires s == FULL
    ensures CharsetType(s) == KAny
  {
    assert 0 in FULL && 1 in FULL;
    assert |FULL - {0, 1}| == |FULL| - 2;
  }

  // ----------------------------------------------------------------------- loop

  /** What `count` and `candidate` tell about the bytes looked at: none has a
      bit, or one byte has one bit, or all bits are set. */
  ghost predicate Seen(cs: Bits, i: nat, count: int, candidate: int)
    requires i <= 32
  {
    || (count == 0 && forall j :: 0 <= j < i ==> cs[j] == 0)
    || (count == 1 && 0 <= candidate < i && cs[candidate] != 0 && cs[candidate] & (cs[candidate] - 1) == 0 &&
        forall j :: 0 <= j < i && j != candidate ==> cs[j] == 0)
    || (count == 8 * i && i > 0 && forall j :: 0 <= j < i ==> cs[j] == 0xFF)
  }

  /** A byte that is not full leaves a gap, one with a bit a member. */
  lemma {:induction false} GapAt(cs: Bits, i: nat) returns (c: Byte)
    requires i < 32 && cs[i] != 0xFF
    ensures c !in Members(cs)
  {
    var k := GapBit(cs[i]);
    HasBit(cs, i, k);
    c := 8 * i + k;
  }

  lemma {:induction false} MemberAt(cs: Bits, i: nat) returns (c: Byte)
    requires i < 32 && cs[i] != 0
    ensures c in Members(cs) && c / 8 == i
  {
    HasBit(cs, i, FirstBit(cs[i]));
    c := 8 * i + FirstBit(cs[i]);
  }

  lemma {:induction false} PairAt(cs: Bits, i: nat) returns (c: Byte, d: Byte)
    requires i < 32 && cs[i] != 0 && cs[i] & (cs[i] - 1) != 0
    ensures c != d && c in Members(cs) && d in Members(cs)
  {
    var j, k := ManyBits(cs[i]);
    HasBit(cs, i, j);
    HasBit(cs, i, k);
    c, d := 8 * i + j, 8 * i + k;
  }

  /** Two bits in byte `i` and a byte `j` that is not full. */
  lemma {:induction false} PairAndGap(cs: Bits, i: nat, j: nat)
    requires i < 32 && j < 32 && cs[i] != 0 && cs[i] & (cs[i] - 1) != 0 && cs[j] != 0xFF
    ensures CharsetType(Members(cs)) == KSet
  {
    var x, y := PairAt(cs, i);
    var z := GapAt(cs, j);
    OtherSet(cs, x, y, z);
  }

  /** Two bytes with bits, of which one is not full. */
  lemma {:induction false} TwoBytes(cs: Bits, i: nat, j: nat)
    requires i < 32 && j < 32 && i != j && cs[i] != 0 && cs[j] != 0 && cs[j] != 0xFF
    ensures CharsetType(Members(cs)) == KSet
  {
    var x := MemberAt(cs, i);
    var y := MemberAt(cs, j);
    var z := GapAt(cs, j);
    OtherSet(cs, x, y, z);
  }

  lemma {:induction false} NoMembers(cs: Bits)
    requires forall j :: 0 <= j < 32 ==> cs[j] == 0
    ensures Members(cs) == {}
  {
    forall c: Byte ensures !Has(cs, c) { FullByte(c % 8); }
  }

  lemma {:induction false} AllMembers(cs: Bits)
    requires forall j :: 0 <= j < 32 ==> cs[j] == 0xFF
    ensures Members(cs) == FULL
  {
    forall c: Byte ensures Has(cs, c) { FullByte(c % 8); }
  }

  lemma {:induction false} OneMember(cs: Bits, i: nat)
    requires i < 32 && cs[i] != 0 && cs[i] & (cs[i] - 1) == 0 && forall j :: 0 <= j < 32 && j != i ==> cs[j] == 0
    ensures 0 <= 8 * i + BitNumber(cs[i]) < 256 && Members(cs) == {8 * i + BitNumber(cs[i])}
  {
    forall c: Byte ensures Has(cs, c) <==> c == 8 * i + BitNumber(cs[i]) {
      if c / 8 == i { OneBit(cs[i], c % 8); } else { FullByte(c % 8); }
    }
    HasBit(cs, i, BitNumber(cs[i]));
  }

  /** `charsettype` */
  method ClassifySet(cs: Bits) returns (k: Kind)
    ensures k == CharsetType(Members(cs))
  {
    var count, candidate := 0, -1;
    for i := 0 to 32
      invariant Seen(cs, i, count, candidate)
    {
      var b := cs[i];
      if b == 0 {
        if count > 1 {
          PairAndGap(cs, 0, i);
          return KSet;
        }
      } else if b == 0xFF {
        if count < i * 8 {
          PairAndGap(cs, i, 0);
          return KSet;
        }
        count := count + 8;
      } else if b & (b - 1) == 0 {
        if count > 0 {
          TwoBytes(cs, if count == 1 then candidate else 0, i);
          return KSet;
        }
        count, candidate := count + 1, i;
      } else {
        PairAndGap(cs, i, i);
        return KSet;
      }
    }
    if count == 0 {
      NoMembers(cs);
      return KFail;
    } else if count == 1 {
      OneMember(cs, candidate);
      SingleSet(Members(cs), 8 * candidate + BitNumber(cs[candidate]));
      var b, c := cs[candidate], candidate * 8;
      if b & 0xF0 != 0 { c, b := c + 4, b >> 4; }
      if b & 0x0C != 0 { c, b := c + 2, b >> 2; }
      if b & 0x02 != 0 { c := c + 1; }
      return KChar(c);
    } else {
      AllMembers(cs);
      FullSet(Members(cs));
      return KAny;
    }
  }
}
