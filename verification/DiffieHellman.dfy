/** Diffie-Hellman key exchange of lua-crypt.c: products and powers modulo the
    largest 64-bit prime, in 64-bit arithmetic that wraps around. */
module DiffieHellman {
  import opened Common

  const P: nat := 0xffff_ffff_ffff_ffc5
  const W: nat := 0x1_0000_0000_0000_0000
  const G: nat := 5

  /** A sum or difference of unsigned 64-bit numbers. */
  function Wrap(x: int): (r: nat)
    ensures r < W
  {
    x % W
  }

  function Pow(a: nat, b: nat): nat
  {
    if b == 0 then 1 else a * Pow(a, b - 1)
  }

  // ------------------------------------------------------------- congruences

  /** Factors may be reduced. */
  lemma {:induction false} ModMul(a: int, b: int)
    ensures (a % P) * b % P == a * b % P
  {
    var q := a / P;
    assert a == q * P + a % P;
    assert a * b == (a % P) * b + (q * b) * P by {
      assert (q * P + a % P) * b == (q * P) * b + (a % P) * b;
      assert (q * P) * b == (q * b) * P;
    }
    ModShift((a % P) * b, q * b, P);
  }

  lemma {:induction false} ModMul2(a: int, b: int)
    ensures (a % P) * (b % P) % P == a * b % P
  {
    ModMul(a, b % P);
    assert a * (b % P) == (b % P) * a;
    ModMul(b, a);
    assert b * a == a * b;
  }

  // -------------------------------------------------------------- mul_mod_p

  /** `mul_mod_p` computes the product although `a * 2 - P` overflows. */
  method MulModP(a0: nat, b0: nat) returns (m: nat)
    requires a0 <= P && b0 < W
    ensures m == a0 * b0 % P
  {
    m := 0;
    var a: nat, b: nat := a0, b0;
    while b != 0
      invariant a <= P && m < P && (m + a * b) % P == a0 * b0 % P
      decreases b
    {
      ghost var m0, a1 := m, a;
      if b % 2 == 1 {
        var t := P - a;
        if m >= t { m := m - t; } else { m := m + a; }
      }
      if a >= P - a { WrapDouble(a); a := Wrap(Wrap(a * 2) - P); } else { a := a * 2; }
      DoubleStep(m0, m, a1, a, b);
      b := b / 2;
    }
  }

  lemma WrapDouble(a: nat)
    requires P - a <= a <= P
    ensures Wrap(Wrap(a * 2) - P) == 2 * a - P
  {
  }

  lemma Halve(a: nat, b: nat)
    ensures a * b == (2 * a) * (b / 2) + (if b % 2 == 1 then a else 0)
  {
    assert b == 2 * (b / 2) + b % 2;
    assert a * (2 * (b / 2) + b % 2) == (2 * a) * (b / 2) + a * (b % 2);
  }

  /** One round keeps `m + a * b`, modulo P. */
  lemma {:induction false} DoubleStep(m0: nat, m: nat, a0: nat, a: nat, b: nat)
    requires a0 <= P && m0 < P && m < P
    requires m == (if b % 2 == 1 then (if m0 >= P - a0 then m0 + a0 - P else m0 + a0) else m0)
    requires a == (if a0 >= P - a0 then 2 * a0 - P else 2 * a0)
    ensures (m + a * (b / 2)) % P == (m0 + a0 * b) % P
  {
    var h := b / 2;
    Halve(a0, b);
    var s := if b % 2 == 1 then m0 + a0 else m0;
    var k := if a0 >= P - a0 then 1 else 0;
    var j := if m == s then 0 else 1;
    assert m == s - j * P;
    assert a * h == (2 * a0) * h - (k * h) * P by {
      if k == 1 { assert (2 * a0 - P) * h == (2 * a0) * h - P * h; }
    }
    assert m0 + a0 * b == s + (2 * a0) * h;
    ModShift(m + a * h, j + k * h, P);
    assert (j + k * h) * P == j * P + (k * h) * P;
  }

  // -------------------------------------------------------------- pow_mod_p

  lemma {:induction false} PowAdd(a: nat, b: nat, c: nat)
    ensures Pow(a, b + c) == Pow(a, b) * Pow(a, c)
    decreases b
  {
    if b > 0 {
      PowAdd(a, b - 1, c);
      assert a * (Pow(a, b - 1) * Pow(a, c)) == (a * Pow(a, b - 1)) * Pow(a, c);
    }
  }

  lemma {:induction false} PowMul(a: nat, b: nat, c: nat)
    ensures Pow(Pow(a, b), c) == Pow(a, b * c)
    decreases c
  {
    if c == 0 { assert b * c == 0; }
    else {
      PowMul(a, b, c - 1);
      assert b * c == b + b * (c - 1);
      PowAdd(a, b, b * (c - 1));
    }
  }

  lemma {:induction false} SameProduct(a: nat, x: nat, y: nat)
    requires x % P == y % P
    ensures (a % P) * x % P == a * y % P
  {
    ModMul2(a % P, x);
    ModMul2(a, y);
    assert (a % P) % P == a % P;
  }

  /** The base may be reduced. */
  lemma {:induction false} PowMod(a: nat, b: nat)
    ensures Pow(a % P, b) % P == Pow(a, b) % P
    decreases b
  {
    if b > 0 {
      PowMod(a, b - 1);
      SameProduct(a, Pow(a % P, b - 1), Pow(a, b - 1));
    }
  }

  lemma PowOne(a: nat)
    ensures Pow(a, 1) == a
  {
    assert Pow(a, 0) == 1;
  }

  /** `pow_mod_p`; it returns the base itself for the exponent one. */
  method PowModP(a: nat, b: nat) returns (r: nat)
    requires a <= P && 1 <= b < W
    ensures r <= P && r == if b == 1 then a else Pow(a, b) % P
    decreases b
  {
    if b == 1 { return a; }
    var t := PowModP(a, b / 2);
    ghost var h := Pow(a, b / 2);
    assert t % P == h % P by { if b / 2 == 1 { PowOne(a); } }
    SquareMod(t, h);
    r := MulModP(t, t);
    PowAdd(a, b / 2, b / 2);
    if b % 2 == 1 {
      OddMod(a, b, r, h * h);
      r := MulModP(r, a);
    }
  }

  lemma {:induction false} SquareMod(t: nat, h: nat)
    requires t % P == h % P
    ensures t * t % P == h * h % P
  {
    ModMul2(t, t);
    ModMul2(h, h);
  }

  lemma {:induction false} OddMod(a: nat, b: nat, r: nat, hh: nat)
    requires b % 2 == 1 && hh == Pow(a, b / 2 + b / 2) && r == hh % P
    ensures r * a % P == Pow(a, b) % P
  {
    assert b == 1 + (b / 2 + b / 2);
    PowAdd(a, 1, b / 2 + b / 2);
    PowOne(a);
    ModMul(hh, a);
    assert hh * a == a * hh;
  }

  /** `powmodp`: the power modulo P, except that P itself is not reduced. */
  method PowMod64(a: nat, b: nat) returns (r: nat)
    requires a < W && 1 <= b < W
    ensures r % P == Pow(a, b) % P
    ensures r == Pow(a, b) % P <==> !(a == P && b == 1)
  {
    var x := if a > P then a % P else a;
    r := PowModP(x, b);
    PowMod(a, b);
    PowMod(x, b);
    PowOne(a);
    PowOne(x);
  }

  // ------------------------------------------------------------- key exchange

  /** What `ldhexchange` sends for the secret number `x`. */
  function Exchange(x: nat): nat { Pow(G, x) % P }

  /** What `ldhsecret` makes of a received number. */
  function Secret(r: nat, y: nat): nat { Pow(r, y) % P }

  /** The inverse of the generator modulo P. */
  const GINV: nat := 7378697629483820623

  /** A power of the generator is not zero, so no exchange is refused. */
  lemma {:induction false} ExchangeNotZero(x: nat)
    ensures Exchange(x) != 0
    decreases x
  {
    if x > 0 {
      ExchangeNotZero(x - 1);
      var y := Pow(G, x - 1);
      if G * y % P == 0 {
        ModMul(G * y, GINV);
        assert G * y * GINV == y + (2 * y) * P;
        ModShift(y, 2 * y, P);
      }
    }
  }

  /** Both sides derive the same secret. */
  lemma {:induction false} SecretsAgree(x: nat, y: nat)
    ensures Secret(Exchange(x), y) == Secret(Exchange(y), x)
  {
    PowMod(Pow(G, x), y);
    PowMod(Pow(G, y), x);
    PowMul(G, x, y);
    PowMul(G, y, x);
    assert x * y == y * x;
  }

  /** `ldhexchange` */
  method DhExchange(x: nat) returns (r: Result<nat>)
    requires x < W
    ensures r == if x == 0 then Error else Ok(Pow(5, x) % 0xffff_ffff_ffff_ffc5)
    ensures x != 0 ==> r == Ok(Exchange(x))
  {
    if x == 0 { return Error; }
    var v := PowMod64(G, x);
    r := Ok(v);
  }

  /** `ldhsecret` */
  method DhSecret(x: nat, y: nat) returns (r: Result<nat>)
    requires x < W && y < W
    ensures r.Error? <==> x == 0 || y == 0
    ensures r.Ok? ==> r.v % P == Secret(x, y) && (x != P ==> r.v == Secret(x, y))
  {
    if x == 0 || y == 0 { return Error; }
    var v := PowMod64(x, y);
    r := Ok(v);
  }

  /** The whole exchange, for all nonzero numbers of 64 bits. */
  method Handshake(x: nat, y: nat) returns (alice: nat, bob: nat)
    requires 0 < x < W && 0 < y < W
    ensures alice == bob == Pow(G, x * y) % P
  {
    var a := DhExchange(x);
    var b := DhExchange(y);
    ExchangeNotZero(x);
    ExchangeNotZero(y);
    var s := DhSecret(b.v, x);
    var t := DhSecret(a.v, y);
    SecretsAgree(x, y);
    PowMod(Pow(G, x), y);
    PowMul(G, x, y);
    alice, bob := s.v, t.v;
  }
}
