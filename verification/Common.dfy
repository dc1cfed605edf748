/** What several components share: optional values, results, and facts about
    finite sets and remainders. */
module Common {
  datatype Opt<T> = None | Some(v: T)

  /** A value, or the error the C code raises. */
  datatype Result<T> = Ok(v: T) | Error

  lemma {:induction false} SubsetSize<T>(x: set<T>, y: set<T>)
    requires x <= y
    ensures |x| <= |y| && (|x| == |y| ==> x == y)
  {
    assert x + (y - x) == y && x * (y - x) == {};
    assert |y - x| == 0 ==> y - x == {};
  }

  /** The numbers below `n`. */
  function Below(n: nat): (s: set<nat>)
    ensures |s| == n && forall x :: x in s <==> 0 <= x < n
  {
    if n == 0 then {} else Below(n - 1) + {n - 1}
  }

  lemma MulGe(n: nat, d: int)
    requires d >= 1
    ensures n * d >= n
  {
  }

  lemma Distribute(n: int, a: int, b: int)
    ensures n * (a - b) == n * a - n * b
  {
  }

  lemma ModUnique(x: int, n: nat, q: int, r: nat)
    requires n > 0 && r < n && x == n * q + r
    ensures x % n == r
  {
    var q', r' := x / n, x % n;
    if q > q' {
      MulGe(n, q - q');
      Distribute(n, q, q');
    } else if q < q' {
      MulGe(n, q' - q);
      Distribute(n, q', q);
    }
  }

  lemma {:induction false} ModStep(x: int, n: nat)
    requires n > 0
    ensures (x + n) % n == x % n
  {
    var q, r := x / n, x % n;
    assert x == n * q + r && x + n == n * (q + 1) + r;
    ModUnique(x + n, n, q + 1, r);
  }

  /** The remainder does not see multiples of the modulus. */
  lemma {:induction false} ModShift(x: int, k: int, n: nat)
    requires n > 0
    ensures (x + k * n) % n == x % n
    decreases if k < 0 then -k else k
  {
    if k > 0 {
      ModShift(x, k - 1, n);
      assert k * n == (k - 1) * n + n;
      ModStep(x + (k - 1) * n, n);
    } else if k < 0 {
      ModShift(x, k + 1, n);
      assert k * n == (k + 1) * n - n;
      ModStep(x + k * n, n);
    }
  }
}
