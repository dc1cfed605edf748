/** Tree rewrites of lptree.c: the pattern constructors with their constant
    simplifications, repetition by `p^n`, and the right-rotation of nested
    sequences and choices done by `finalfix` before compilation. */
module LpegRewrite {
  import opened LpegTree
  import opened LpegGrammar

  /** Two patterns have the same answers. */
  ghost predicate Equiv(g: Grammar, t: Tree, t': Tree)
  {
    forall s, i, r :: 0 <= i <= |s| ==> (Matches(g, t, s, i, r) <==> Matches(g, t', s, i, r))
  }

  // ------------------------------------------------------ answers of compounds

  ghost predicate SeqMatches(g: Grammar, t1: Tree, t2: Tree, s: seq<Byte>, i: nat, r: Res)
    requires i <= |s|
  {
    || (r == Fail && Matches(g, t1, s, i, Fail))
    || exists j :: i <= j <= |s| && Matches(g, t1, s, i, Ok(j)) && Matches(g, t2, s, j, r)
  }

  lemma {:induction false} MatchesSeq(g: Grammar, t1: Tree, t2: Tree, s: seq<Byte>, i: nat, r: Res)
    requires i <= |s|
    ensures Matches(g, TSeq(t1, t2), s, i, r) <==> SeqMatches(g, t1, t2, s, i, r)
  {
    var t := TSeq(t1, t2);
    if Matches(g, t, s, i, r) {
      var f: nat :| Peg(g, t, s, i, f) == r;
      var r1 := Peg(g, t1, s, i, f - 1);
      assert Matches(g, t1, s, i, r1);
      if r1.Ok? { assert Peg(g, t2, s, r1.pos, f - 1) == r; }
    }
    if SeqMatches(g, t1, t2, s, i, r) {
      if r == Fail && Matches(g, t1, s, i, Fail) {
        var f: nat :| Peg(g, t1, s, i, f) == Fail;
        assert Peg(g, t, s, i, f + 1) == Fail;
      } else {
        var j :| i <= j <= |s| && Matches(g, t1, s, i, Ok(j)) && Matches(g, t2, s, j, r);
        SeqFromParts(g, t1, t2, s, i, j, r);
      }
    }
  }

  lemma {:induction false} SeqFromParts(g: Grammar, t1: Tree, t2: Tree, s: seq<Byte>, i: nat, j: nat, r: Res)
    requires i <= j <= |s| && Matches(g, t1, s, i, Ok(j)) && Matches(g, t2, s, j, r)
    ensures Matches(g, TSeq(t1, t2), s, i, r)
  {
    var f1: nat :| Peg(g, t1, s, i, f1) == Ok(j);
    var f2: nat :| Peg(g, t2, s, j, f2) == r;
    var f := if f1 < f2 then f2 else f1;
    PegStable(g, t1, s, i, f1, f);
    PegStable(g, t2, s, j, f2, f);
    assert Peg(g, TSeq(t1, t2), s, i, f + 1) == r;
  }

  ghost predicate ChoiceMatches(g: Grammar, t1: Tree, t2: Tree, s: seq<Byte>, i: nat, r: Res)
    requires i <= |s|
  {
    || (r.Ok? && Matches(g, t1, s, i, r))
    || (Matches(g, t1, s, i, Fail) && Matches(g, t2, s, i, r))
  }

  lemma {:induction false} MatchesChoice(g: Grammar, t1: Tree, t2: Tree, s: seq<Byte>, i: nat, r: Res)
    requires i <= |s|
    ensures Matches(g, TChoice(t1, t2), s, i, r) <==> ChoiceMatches(g, t1, t2, s, i, r)
  {
    var t := TChoice(t1, t2);
    if Matches(g, t, s, i, r) {
      var f: nat :| Peg(g, t, s, i, f) == r;
      assert Matches(g, t1, s, i, Peg(g, t1, s, i, f - 1));
      if Peg(g, t1, s, i, f - 1).Fail? { assert Peg(g, t2, s, i, f - 1) == r; }
    }
    if ChoiceMatches(g, t1, t2, s, i, r) {
      if r.Ok? && Matches(g, t1, s, i, r) {
        var f: nat :| Peg(g, t1, s, i, f) == r;
        assert Peg(g, t, s, i, f + 1) == r;
      } else {
        var f1: nat :| Peg(g, t1, s, i, f1) == Fail;
        var f2: nat :| Peg(g, t2, s, i, f2) == r;
        var f := if f1 < f2 then f2 else f1;
        PegStable(g, t1, s, i, f1, f);
        PegStable(g, t2, s, i, f2, f);
        assert Peg(g, t, s, i, f + 1) == r;
      }
    }
  }

  lemma {:induction false} MatchesConst(g: Grammar, s: seq<Byte>, i: nat, r: Res)
    requires i <= |s|
    ensures Matches(g, TTrue, s, i, r) <==> r == Ok(i)
    ensures Matches(g, TFalse, s, i, r) <==> r == Fail
  {
    assert Peg(g, TTrue, s, i, 1) == Ok(i);
    assert Peg(g, TFalse, s, i, 1) == Fail;
  }

  lemma {:induction false} MatchesCharset(g: Grammar, t: Tree, s: seq<Byte>, i: nat, r: Res)
    requires i <= |s| && IsCharset(t)
    ensures Matches(g, t, s, i, r) <==> r == if i < |s| && s[i] in ToCharset(t) then Ok(i + 1) else Fail
  {
    assert Peg(g, t, s, i, 1) == if i < |s| && s[i] in ToCharset(t) then Ok(i + 1) else Fail;
  }

  // ------------------------------------------------------------- constructors

  /** `lp_seq` */
  function MkSeq(t1: Tree, t2: Tree): Tree
  {
    if t1.TFalse? || t2.TTrue? then t1 else if t1.TTrue? then t2 else TSeq(t1, t2)
  }

  /** `lp_choice` */
  function MkChoice(g: Grammar, t1: Tree, t2: Tree, d: nat): Tree
  {
    if IsCharset(t1) && IsCharset(t2) then TSet(ToCharset(t1) + ToCharset(t2))
    else if NoFail(g, t1, d) || t2.TFalse? then t1
    else if t1.TFalse? then t2
    else TChoice(t1, t2)
  }

  /** `lp_sub` */
  function MkSub(t1: Tree, t2: Tree): Tree
  {
    if IsCharset(t1) && IsCharset(t2) then TSet(ToCharset(t1) - ToCharset(t2)) else TSeq(TNot(t2), t1)
  }

  lemma {:induction false} MkSeqMeaning(g: Grammar, t1: Tree, t2: Tree)
    ensures Equiv(g, MkSeq(t1, t2), TSeq(t1, t2))
  {
    forall s, i, r | 0 <= i <= |s|
      ensures Matches(g, MkSeq(t1, t2), s, i, r) <==> Matches(g, TSeq(t1, t2), s, i, r)
    {
      MatchesSeq(g, t1, t2, s, i, r);
      MatchesConst(g, s, i, r);
      if t1.TFalse? {
        forall j | i <= j <= |s| ensures !Matches(g, t1, s, i, Ok(j)) { MatchesConst(g, s, i, Ok(j)); }
      } else if t2.TTrue? {
        forall j | i <= j <= |s| ensures Matches(g, t2, s, j, r) <==> r == Ok(j) { MatchesConst(g, s, j, r); }
        if Matches(g, t1, s, i, r) && r.Ok? { MatchBounds(g, t1, s, i, r); }
      } else if t1.TTrue? {
        forall j | i <= j <= |s| ensures Matches(g, t1, s, i, Ok(j)) <==> j == i { MatchesConst(g, s, i, Ok(j)); }
      }
    }
  }

  lemma {:induction false} MatchBounds(g: Grammar, t: Tree, s: seq<Byte>, i: nat, r: Res)
    requires i <= |s| && Matches(g, t, s, i, r) && r.Ok?
    ensures i <= r.pos <= |s|
  {
  }

  lemma {:induction false} MkChoiceMeaning(g: Grammar, t1: Tree, t2: Tree, d: nat)
    ensures Equiv(g, MkChoice(g, t1, t2, d), TChoice(t1, t2))
  {
    forall s, i, r | 0 <= i <= |s|
      ensures Matches(g, MkChoice(g, t1, t2, d), s, i, r) <==> Matches(g, TChoice(t1, t2), s, i, r)
    {
      MatchesChoice(g, t1, t2, s, i, r);
      MatchesConst(g, s, i, r);
      MatchesConst(g, s, i, Fail);
      if IsCharset(t1) && IsCharset(t2) {
        MatchesCharset(g, TSet(ToCharset(t1) + ToCharset(t2)), s, i, r);
        MatchesCharset(g, t1, s, i, r);
        MatchesCharset(g, t1, s, i, Fail);
        MatchesCharset(g, t2, s, i, r);
      } else if NoFail(g, t1, d) {
        if Matches(g, t1, s, i, Fail) {
          var f: nat :| Peg(g, t1, s, i, f) == Fail;
          NoFailSound(g, t1, s, i, f, d);
          assert false;
        }
      }
    }
  }

  lemma {:induction false} MatchesNot(g: Grammar, t: Tree, s: seq<Byte>, i: nat, r: Res)
    requires i <= |s| && IsCharset(t)
    ensures Matches(g, TNot(t), s, i, r) <==> r == if i < |s| && s[i] in ToCharset(t) then Fail else Ok(i)
  {
    assert Peg(g, TNot(t), s, i, 2) == if i < |s| && s[i] in ToCharset(t) then Fail else Ok(i);
    if Matches(g, TNot(t), s, i, r) { MatchesUnique(g, TNot(t), s, i, r, Peg(g, TNot(t), s, i, 2)); }
  }

  lemma {:induction false} MkSubMeaning(g: Grammar, t1: Tree, t2: Tree)
    ensures Equiv(g, MkSub(t1, t2), TSeq(TNot(t2), t1))
  {
    if IsCharset(t1) && IsCharset(t2) {
      forall s, i, r | 0 <= i <= |s|
        ensures Matches(g, MkSub(t1, t2), s, i, r) <==> Matches(g, TSeq(TNot(t2), t1), s, i, r)
      {
        MatchesSeq(g, TNot(t2), t1, s, i, r);
        MatchesNot(g, t2, s, i, Fail);
        forall j | i <= j <= |s|
          ensures Matches(g, TNot(t2), s, i, Ok(j)) <==> j == i && !(i < |s| && s[i] in ToCharset(t2)) {
          MatchesNot(g, t2, s, i, Ok(j));
        }
        MatchesCharset(g, t1, s, i, r);
        MatchesCharset(g, MkSub(t1, t2), s, i, r);
      }
    }
  }

  // ------------------------------------------------------------- repetitions

  /** `lp_star` for `n >= 0`: at least `n` times. */
  function AtLeast(t: Tree, n: nat): Tree
  {
    if n == 0 then TRep(t) else TSeq(t, AtLeast(t, n - 1))
  }

  /** `lp_star` for a negative exponent: at most `n` times, `n >= 1`. */
  function AtMost(t: Tree, n: nat): Tree
    requires n >= 1
  {
    if n == 1 then TChoice(t, TTrue) else TChoice(TSeq(t, AtMost(t, n - 1)), TTrue)
  }

  /** `t` matches from each position of `q` to the next. */
  ghost predicate Chain(g: Grammar, t: Tree, s: seq<Byte>, q: seq<nat>)
  {
    |q| > 0 && (forall k :: 0 <= k < |q| ==> q[k] <= |s|) && forall k :: 0 < k < |q| ==> Linked(g, t, s, q, k)
  }

  ghost predicate Linked(g: Grammar, t: Tree, s: seq<Byte>, q: seq<nat>, k: int)
    requires 0 < k < |q|
  {
    q[k - 1] <= |s| && Matches(g, t, s, q[k - 1], Ok(q[k]))
  }

  lemma {:induction false} ChainTail(g: Grammar, t: Tree, s: seq<Byte>, q: seq<nat>)
    requires Chain(g, t, s, q) && |q| > 1
    ensures Chain(g, t, s, q[1..]) && Matches(g, t, s, q[0], Ok(q[1])) && q[0] <= q[1]
  {
    var q' := q[1..];
    assert Linked(g, t, s, q, 1);
    MatchBounds(g, t, s, q[0], Ok(q[1]));
    forall k | 0 < k < |q'| ensures Linked(g, t, s, q', k) { assert Linked(g, t, s, q, k + 1); }
  }

  lemma {:induction false} RepMatches(g: Grammar, t: Tree, s: seq<Byte>, q: seq<nat>)
    requires Chain(g, t, s, q) && Matches(g, t, s, q[|q| - 1], Fail)
    ensures Matches(g, TRep(t), s, q[0], Ok(q[|q| - 1]))
    decreases |q|
  {
    if |q| == 1 {
      var f: nat :| Peg(g, t, s, q[0], f) == Fail;
      assert Peg(g, TRep(t), s, q[0], f + 1) == Ok(q[0]);
    } else {
      ChainTail(g, t, s, q);
      RepMatches(g, t, s, q[1..]);
      var f1: nat :| Peg(g, t, s, q[0], f1) == Ok(q[1]);
      var f2: nat :| Peg(g, TRep(t), s, q[1], f2) == Ok(q[|q| - 1]);
      var f := if f1 < f2 then f2 else f1;
      PegStable(g, t, s, q[0], f1, f);
      PegStable(g, TRep(t), s, q[1], f2, f);
      assert Peg(g, TRep(t), s, q[0], f + 1) == Ok(q[|q| - 1]);
    }
  }

  /** `p^n` repeats as often as it can and fails when that is fewer than `n`. */
  lemma {:induction false} AtLeastMeaning(g: Grammar, t: Tree, s: seq<Byte>, q: seq<nat>, n: nat)
    requires Chain(g, t, s, q) && Matches(g, t, s, q[|q| - 1], Fail)
    ensures Matches(g, AtLeast(t, n), s, q[0], if |q| - 1 >= n then Ok(q[|q| - 1]) else Fail)
    decreases n
  {
    var r := if |q| - 1 >= n then Ok(q[|q| - 1]) else Fail;
    if n == 0 {
      RepMatches(g, t, s, q);
    } else {
      MatchesSeq(g, t, AtLeast(t, n - 1), s, q[0], r);
      if |q| > 1 {
        ChainTail(g, t, s, q);
        AtLeastMeaning(g, t, s, q[1..], n - 1);
      }
    }
  }

  /** A match in front of a chain. */
  lemma {:induction false} ChainCons(g: Grammar, t: Tree, s: seq<Byte>, i: nat, q: seq<nat>)
    requires i <= |s| && Chain(g, t, s, q) && Matches(g, t, s, i, Ok(q[0]))
    ensures Chain(g, t, s, [i] + q)
  {
    var q' := [i] + q;
    forall k | 0 < k < |q'| ensures Linked(g, t, s, q', k) { if k > 1 { assert Linked(g, t, s, q, k - 1); } }
  }

  lemma {:induction false} RepChain(g: Grammar, t: Tree, s: seq<Byte>, i: nat, f: nat) returns (q: seq<nat>)
    requires i <= |s| && Peg(g, TRep(t), s, i, f) != Out
    ensures Chain(g, t, s, q) && q[0] == i && Matches(g, t, s, q[|q| - 1], Fail)
    ensures Peg(g, TRep(t), s, i, f) == Ok(q[|q| - 1])
    decreases f
  {
    var r := Peg(g, t, s, i, f - 1);
    if r.Fail? {
      q := [i];
    } else {
      q := RepChain(g, t, s, r.pos, f - 1);
      ChainCons(g, t, s, i, q);
      q := [i] + q;
    }
  }

  /** Every answer of `p^n` is that of such a chain. */
  lemma {:induction false} AtLeastChain(g: Grammar, t: Tree, s: seq<Byte>, i: nat, n: nat, f: nat) returns (q: seq<nat>)
    requires i <= |s| && Peg(g, AtLeast(t, n), s, i, f) != Out
    ensures Chain(g, t, s, q) && q[0] == i && Matches(g, t, s, q[|q| - 1], Fail)
    ensures Peg(g, AtLeast(t, n), s, i, f) == if |q| - 1 >= n then Ok(q[|q| - 1]) else Fail
    decreases n
  {
    if n == 0 {
      q := RepChain(g, t, s, i, f);
    } else {
      var r := Peg(g, t, s, i, f - 1);
      if r.Fail? {
        q := [i];
      } else {
        q := AtLeastChain(g, t, s, r.pos, n - 1, f - 1);
        ChainCons(g, t, s, i, q);
        q := [i] + q;
      }
    }
  }

  /** `p^-n` repeats as often as it can, but no more than `n` times. */
  lemma {:induction false} AtMostMeaning(g: Grammar, t: Tree, s: seq<Byte>, q: seq<nat>, n: nat)
    requires n >= 1 && Chain(g, t, s, q) && |q| - 1 <= n
    requires |q| - 1 == n || Matches(g, t, s, q[|q| - 1], Fail)
    ensures Matches(g, AtMost(t, n), s, q[0], Ok(q[|q| - 1]))
    decreases n
  {
    var r := Ok(q[|q| - 1]);
    MatchesConst(g, s, q[0], r);
    if n == 1 {
      MatchesChoice(g, t, TTrue, s, q[0], r);
      if |q| == 2 { ChainTail(g, t, s, q); }
    } else {
      var t1 := TSeq(t, AtMost(t, n - 1));
      MatchesChoice(g, t1, TTrue, s, q[0], r);
      MatchesSeq(g, t, AtMost(t, n - 1), s, q[0], r);
      MatchesSeq(g, t, AtMost(t, n - 1), s, q[0], Fail);
      if |q| > 1 {
        ChainTail(g, t, s, q);
        AtMostMeaning(g, t, s, q[1..], n - 1);
      }
    }
  }

  /** Every answer of `p^-n` is that of such a chain; it never fails. */
  lemma {:induction false} AtMostChain(g: Grammar, t: Tree, s: seq<Byte>, i: nat, n: nat, f: nat) returns (q: seq<nat>)
    requires n >= 1 && i <= |s| && Peg(g, AtMost(t, n), s, i, f) != Out
    ensures Chain(g, t, s, q) && q[0] == i && |q| - 1 <= n && Peg(g, AtMost(t, n), s, i, f) == Ok(q[|q| - 1])
    ensures |q| - 1 == n || Matches(g, t, s, q[|q| - 1], Fail)
    decreases n
  {
    var r := if n == 1 then Peg(g, t, s, i, f - 1) else if f < 2 then Out else Peg(g, t, s, i, f - 2);
    if r.Fail? {
      q := [i];
    } else if n == 1 {
      q := [i, r.pos];
      assert Linked(g, t, s, q, 1);
    } else {
      q := AtMostChain(g, t, s, r.pos, n - 1, f - 2);
      ChainCons(g, t, s, i, q);
      q := [i] + q;
    }
  }

  // ---------------------------------------------------------- right rotation

  /** `correctassociativity`: (a op b) op c becomes a op (b op c). */
  function Rotate(t: Tree): (r: Tree)
    ensures TSize(r) == TSize(t)
    ensures (t.TSeq? ==> r.TSeq? && !r.p1.TSeq?) && (t.TChoice? ==> r.TChoice? && !r.p1.TChoice?)
    ensures !t.TSeq? && !t.TChoice? ==> r == t
    decreases if t.TSeq? || t.TChoice? then TSize(t.p1) else 0
  {
    match t
    case TSeq(TSeq(a, b), c) =>
      assert TSize(TSeq(b, c)) == 1 + TSize(b) + TSize(c);
      Rotate(TSeq(a, TSeq(b, c)))
    case TChoice(TChoice(a, b), c) =>
      assert TSize(TChoice(b, c)) == 1 + TSize(b) + TSize(c);
      Rotate(TChoice(a, TChoice(b, c)))
    case _ => t
  }

  /** `finalfix`; sub-grammars were fixed when they were built. */
  function FinalFix(t: Tree): Tree
    decreases TSize(t), t
  {
    match Rotate(t)
    case TSeq(a, b) => TSeq(FinalFix(a), FinalFix(b))
    case TChoice(a, b) => TChoice(FinalFix(a), FinalFix(b))
    case TRep(p) => TRep(FinalFix(p))
    case TNot(p) => TNot(FinalFix(p))
    case TAnd(p) => TAnd(FinalFix(p))
    case TBehind(n, p) => TBehind(n, FinalFix(p))
    case t' => t'
  }

  function FixEnv(g: Grammar): (g': Grammar)
    ensures |g'| == |g| && forall k :: 0 <= k < |g| ==> g'[k] == FinalFix(g[k])
  {
    seq(|g|, k requires 0 <= k < |g| => FinalFix(g[k]))
  }

  lemma {:induction false} SeqAssoc(g: Grammar, a: Tree, b: Tree, c: Tree)
    ensures Equiv(g, TSeq(TSeq(a, b), c), TSeq(a, TSeq(b, c)))
  {
    forall s, i, r | 0 <= i <= |s|
      ensures Matches(g, TSeq(TSeq(a, b), c), s, i, r) <==> Matches(g, TSeq(a, TSeq(b, c)), s, i, r)
    {
      MatchesSeq(g, TSeq(a, b), c, s, i, r);
      MatchesSeq(g, a, TSeq(b, c), s, i, r);
      MatchesSeq(g, a, b, s, i, Fail);
      forall j | i <= j <= |s|
        ensures Matches(g, TSeq(a, b), s, i, Ok(j)) <==> SeqMatches(g, a, b, s, i, Ok(j))
        ensures Matches(g, TSeq(b, c), s, j, r) <==> SeqMatches(g, b, c, s, j, r)
      {
        MatchesSeq(g, a, b, s, i, Ok(j));
        MatchesSeq(g, b, c, s, j, r);
      }
    }
  }

  lemma {:induction false} ChoiceAssoc(g: Grammar, a: Tree, b: Tree, c: Tree)
    ensures Equiv(g, TChoice(TChoice(a, b), c), TChoice(a, TChoice(b, c)))
  {
    forall s, i, r | 0 <= i <= |s|
      ensures Matches(g, TChoice(TChoice(a, b), c), s, i, r) <==> Matches(g, TChoice(a, TChoice(b, c)), s, i, r)
    {
      MatchesChoice(g, TChoice(a, b), c, s, i, r);
      MatchesChoice(g, a, TChoice(b, c), s, i, r);
      MatchesChoice(g, a, b, s, i, r);
      MatchesChoice(g, a, b, s, i, Fail);
      MatchesChoice(g, b, c, s, i, r);
    }
  }

  lemma {:induction false} SeqCongruent(g: Grammar, a: Tree, a': Tree, b: Tree, b': Tree)
    requires Equiv(g, a, a') && Equiv(g, b, b')
    ensures Equiv(g, TSeq(a, b), TSeq(a', b')) && Equiv(g, TChoice(a, b), TChoice(a', b'))
  {
    forall s, i, r | 0 <= i <= |s|
      ensures Matches(g, TSeq(a, b), s, i, r) <==> Matches(g, TSeq(a', b'), s, i, r)
      ensures Matches(g, TChoice(a, b), s, i, r) <==> Matches(g, TChoice(a', b'), s, i, r)
    {
      MatchesSeq(g, a, b, s, i, r);
      MatchesSeq(g, a', b', s, i, r);
      MatchesChoice(g, a, b, s, i, r);
      MatchesChoice(g, a', b', s, i, r);
    }
  }

  lemma {:induction false} EquivTrans(g: Grammar, a: Tree, b: Tree, c: Tree)
    requires Equiv(g, a, b) && Equiv(g, b, c)
    ensures Equiv(g, a, c) && Equiv(g, b, a)
  {
  }

  /** Rotation keeps the answers. */
  lemma {:induction false} RotateMeaning(g: Grammar, t: Tree)
    ensures Equiv(g, t, Rotate(t))
    decreases if t.TSeq? || t.TChoice? then TSize(t.p1) else 0
  {
    match t
    case TSeq(TSeq(a, b), c) =>
      SeqAssoc(g, a, b, c);
      RotateMeaning(g, TSeq(a, TSeq(b, c)));
      EquivTrans(g, t, TSeq(a, TSeq(b, c)), Rotate(t));
    case TChoice(TChoice(a, b), c) =>
      ChoiceAssoc(g, a, b, c);
      RotateMeaning(g, TChoice(a, TChoice(b, c)));
      EquivTrans(g, t, TChoice(a, TChoice(b, c)), Rotate(t));
    case _ =>
  }

  /** Fixing a sequence is the same, up to rotation, as fixing its parts. */
  lemma {:induction false} FixSeq(g: Grammar, x: Tree, y: Tree)
    ensures Equiv(g, FinalFix(TSeq(x, y)), TSeq(FinalFix(x), FinalFix(y)))
    decreases TSize(x)
  {
    if x.TSeq? {
      var TSeq(a, b) := x;
      var fa, fb, fy := FinalFix(a), FinalFix(b), FinalFix(y);
      assert FinalFix(TSeq(x, y)) == FinalFix(TSeq(a, TSeq(b, y)));
      FixSeq(g, a, TSeq(b, y));
      FixSeq(g, b, y);
      SeqCongruent(g, fa, fa, FinalFix(TSeq(b, y)), TSeq(fb, fy));
      EquivTrans(g, FinalFix(TSeq(x, y)), TSeq(fa, FinalFix(TSeq(b, y))), TSeq(fa, TSeq(fb, fy)));
      SeqAssoc(g, fa, fb, fy);
      EquivTrans(g, TSeq(TSeq(fa, fb), fy), TSeq(fa, TSeq(fb, fy)), TSeq(fa, TSeq(fb, fy)));
      EquivTrans(g, FinalFix(TSeq(x, y)), TSeq(fa, TSeq(fb, fy)), TSeq(TSeq(fa, fb), fy));
      FixSeq(g, a, b);
      EquivTrans(g, FinalFix(x), TSeq(fa, fb), TSeq(fa, fb));
      SeqCongruent(g, TSeq(fa, fb), FinalFix(x), fy, fy);
      EquivTrans(g, FinalFix(TSeq(x, y)), TSeq(TSeq(fa, fb), fy), TSeq(FinalFix(x), fy));
    }
  }

  lemma {:induction false} FixChoice(g: Grammar, x: Tree, y: Tree)
    ensures Equiv(g, FinalFix(TChoice(x, y)), TChoice(FinalFix(x), FinalFix(y)))
    decreases TSize(x)
  {
    if x.TChoice? {
      var TChoice(a, b) := x;
      var fa, fb, fy := FinalFix(a), FinalFix(b), FinalFix(y);
      assert FinalFix(TChoice(x, y)) == FinalFix(TChoice(a, TChoice(b, y)));
      FixChoice(g, a, TChoice(b, y));
      FixChoice(g, b, y);
      SeqCongruent(g, fa, fa, FinalFix(TChoice(b, y)), TChoice(fb, fy));
      EquivTrans(g, FinalFix(TChoice(x, y)), TChoice(fa, FinalFix(TChoice(b, y))), TChoice(fa, TChoice(fb, fy)));
      ChoiceAssoc(g, fa, fb, fy);
      EquivTrans(g, TChoice(TChoice(fa, fb), fy), TChoice(fa, TChoice(fb, fy)), TChoice(fa, TChoice(fb, fy)));
      EquivTrans(g, FinalFix(TChoice(x, y)), TChoice(fa, TChoice(fb, fy)), TChoice(TChoice(fa, fb), fy));
      FixChoice(g, a, b);
      EquivTrans(g, FinalFix(x), TChoice(fa, fb), TChoice(fa, fb));
      SeqCongruent(g, TChoice(fa, fb), FinalFix(x), fy, fy);
      EquivTrans(g, FinalFix(TChoice(x, y)), TChoice(TChoice(fa, fb), fy), TChoice(FinalFix(x), fy));
    }
  }

  /** `finalfix` of a pattern and of the rules around it keeps every answer. */
  lemma {:induction false} FixForward(g: Grammar, t: Tree, s: seq<Byte>, i: nat, f: nat)
    requires i <= |s| && Peg(g, t, s, i, f) != Out
    ensures Matches(FixEnv(g), FinalFix(t), s, i, Peg(g, t, s, i, f))
    decreases f, 1
  {
    var g', r := FixEnv(g), Peg(g, t, s, i, f);
    match t
    case TSeq(a, b) =>
      FixForward(g, a, s, i, f - 1);
      var r1 := Peg(g, a, s, i, f - 1);
      if r1.Ok? { FixForward(g, b, s, r1.pos, f - 1); }
      MatchesSeq(g', FinalFix(a), FinalFix(b), s, i, r);
      FixSeq(g', a, b);
    case TChoice(a, b) =>
      FixForward(g, a, s, i, f - 1);
      if Peg(g, a, s, i, f - 1).Fail? { FixForward(g, b, s, i, f - 1); }
      MatchesChoice(g', FinalFix(a), FinalFix(b), s, i, r);
      FixChoice(g', a, b);
    case TRep(p) =>
      FixForward(g, p, s, i, f - 1);
      var r1 := Peg(g, p, s, i, f - 1);
      if r1.Ok? { FixForward(g, t, s, r1.pos, f - 1); }
      MatchesRep(g', FinalFix(p), s, i, r1, r);
    case TNot(p) => FixForwardOne(g, t, s, i, f);
    case TAnd(p) => FixForwardOne(g, t, s, i, f);
    case TBehind(n, p) => FixForwardOne(g, t, s, i, f);
    case TCall(k) => FixForwardOne(g, t, s, i, f);
    case _ => assert FinalFix(t) == t; assert Peg(g', t, s, i, f) == r;
  }

  /** The patterns that run one other pattern. */
  lemma {:induction false} FixForwardOne(g: Grammar, t: Tree, s: seq<Byte>, i: nat, f: nat)
    requires i <= |s| && Peg(g, t, s, i, f) != Out
    requires t.TNot? || t.TAnd? || t.TBehind? || t.TCall?
    ensures Matches(FixEnv(g), FinalFix(t), s, i, Peg(g, t, s, i, f))
    decreases f, 0
  {
    var g', r := FixEnv(g), Peg(g, t, s, i, f);
    match t
    case TNot(p) => FixForward(g, p, s, i, f - 1);
      LiftOne(g', FinalFix(t), FinalFix(p), s, i, i, Peg(g, p, s, i, f - 1), r);
    case TAnd(p) => FixForward(g, p, s, i, f - 1);
      LiftOne(g', FinalFix(t), FinalFix(p), s, i, i, Peg(g, p, s, i, f - 1), r);
    case TBehind(n, p) =>
      if n <= i {
        FixForward(g, p, s, i - n, f - 1);
        LiftOne(g', FinalFix(t), FinalFix(p), s, i, i - n, Peg(g, p, s, i - n, f - 1), r);
      } else {
        assert Peg(g', FinalFix(t), s, i, 1) == Fail;
      }
    case TCall(k) =>
      if k < |g| {
        FixForward(g, g[k], s, i, f - 1);
        LiftOne(g', FinalFix(t), FinalFix(g[k]), s, i, i, r, r);
      } else {
        assert Peg(g', FinalFix(t), s, i, 1) == Fail;
      }
  }

  lemma {:induction false} MatchesRep(g: Grammar, p: Tree, s: seq<Byte>, i: nat, r1: Res, r: Res)
    requires i <= |s| && Matches(g, p, s, i, r1)
    requires match r1
             case Out => false
             case Fail => r == Ok(i)
             case Ok(j) => j <= |s| && Matches(g, TRep(p), s, j, r)
    ensures Matches(g, TRep(p), s, i, r)
  {
    var f1: nat :| Peg(g, p, s, i, f1) == r1;
    if r1.Fail? {
      assert Peg(g, TRep(p), s, i, f1 + 1) == r;
    } else {
      var f2: nat :| Peg(g, TRep(p), s, r1.pos, f2) == r;
      var f := if f1 < f2 then f2 else f1;
      PegStable(g, p, s, i, f1, f);
      PegStable(g, TRep(p), s, r1.pos, f2, f);
      assert Peg(g, TRep(p), s, i, f + 1) == r;
    }
  }

  /** A pattern whose answer depends on one inner evaluation. */
  lemma {:induction false} LiftOne(g: Grammar, t: Tree, p: Tree, s: seq<Byte>, i: nat, j: nat, r1: Res, r: Res)
    requires i <= |s| && j <= |s| && Matches(g, p, s, j, r1)
    requires || (t == TNot(p) && j == i && r == if r1.Ok? then Fail else Ok(i))
             || (t == TAnd(p) && j == i && r == if r1.Ok? then Ok(i) else Fail)
             || (t.TBehind? && t.body == p && t.n <= i && j == i - t.n && r == if r1 == Ok(i) then Ok(i) else Fail)
             || (t.TCall? && t.rule < |g| && g[t.rule] == p && j == i && r == r1)
    ensures Matches(g, t, s, i, r)
  {
    var f: nat :| Peg(g, p, s, j, f) == r1;
    assert Peg(g, t, s, i, f + 1) == r;
  }

  lemma {:induction false} FixBackward(g: Grammar, t: Tree, s: seq<Byte>, i: nat, f: nat)
    requires i <= |s| && Peg(FixEnv(g), FinalFix(t), s, i, f) != Out
    ensures Matches(g, t, s, i, Peg(FixEnv(g), FinalFix(t), s, i, f))
    decreases f, 1
  {
    if t.TSeq? || t.TChoice? {
      FixBackwardPair(g, t, s, i, f);
    } else {
      FixBackwardOne(g, t, s, i, f);
    }
  }

  lemma {:induction false} FixBackwardPair(g: Grammar, t: Tree, s: seq<Byte>, i: nat, f: nat)
    requires i <= |s| && Peg(FixEnv(g), FinalFix(t), s, i, f) != Out && (t.TSeq? || t.TChoice?)
    ensures Matches(g, t, s, i, Peg(FixEnv(g), FinalFix(t), s, i, f))
    decreases f, 0
  {
    var g', t1 := FixEnv(g), Rotate(t);
    var r := Peg(g', FinalFix(t), s, i, f);
    RotateMeaning(g, t);
    var a, b := t1.p1, t1.p2;
    FixBackward(g, a, s, i, f - 1);
    var r1 := Peg(g', FinalFix(a), s, i, f - 1);
    if t.TSeq? {
      if r1.Ok? { FixBackward(g, b, s, r1.pos, f - 1); }
      MatchesSeq(g, a, b, s, i, r);
    } else {
      if r1.Fail? { FixBackward(g, b, s, i, f - 1); }
      MatchesChoice(g, a, b, s, i, r);
    }
  }

  lemma {:induction false} FixBackwardOne(g: Grammar, t: Tree, s: seq<Byte>, i: nat, f: nat)
    requires i <= |s| && Peg(FixEnv(g), FinalFix(t), s, i, f) != Out && !t.TSeq? && !t.TChoice?
    ensures Matches(g, t, s, i, Peg(FixEnv(g), FinalFix(t), s, i, f))
    decreases f, 0
  {
    var g' := FixEnv(g);
    var r := Peg(g', FinalFix(t), s, i, f);
    if IsCharset(t) || t.TTrue? || t.TFalse? || t.TGrammar? { assert Peg(g, t, s, i, f) == r; }
    match t
    case TRep(p) =>
      FixBackward(g, p, s, i, f - 1);
      var r1 := Peg(g', FinalFix(p), s, i, f - 1);
      if r1.Ok? { FixBackward(g, t, s, r1.pos, f - 1); }
      MatchesRep(g, p, s, i, r1, r);
    case TNot(p) => FixBackward(g, p, s, i, f - 1); LiftOne(g, t, p, s, i, i, Peg(g', FinalFix(p), s, i, f - 1), r);
    case TAnd(p) => FixBackward(g, p, s, i, f - 1); LiftOne(g, t, p, s, i, i, Peg(g', FinalFix(p), s, i, f - 1), r);
    case TBehind(n, p) =>
      if n <= i {
        FixBackward(g, p, s, i - n, f - 1);
        LiftOne(g, t, p, s, i, i - n, Peg(g', FinalFix(p), s, i - n, f - 1), r);
      } else {
        assert Peg(g, t, s, i, 1) == Fail;
      }
    case TCall(k) =>
      if k < |g| {
        FixBackward(g, g[k], s, i, f - 1);
        LiftOne(g, t, g[k], s, i, i, r, r);
      } else {
        assert Peg(g, t, s, i, 1) == Fail;
      }
    case _ =>
  }

  /** Right-rotating a pattern and its rules changes no answer. */
  lemma {:induction false} FinalFixMeaning(g: Grammar, t: Tree, s: seq<Byte>, i: nat, r: Res)
    requires i <= |s|
    ensures Matches(g, t, s, i, r) <==> Matches(FixEnv(g), FinalFix(t), s, i, r)
  {
    if Matches(g, t, s, i, r) {
      var f: nat :| Peg(g, t, s, i, f) == r;
      FixForward(g, t, s, i, f);
    }
    if Matches(FixEnv(g), FinalFix(t), s, i, r) {
      var f: nat :| Peg(FixEnv(g), FinalFix(t), s, i, f) == r;
      FixBackward(g, t, s, i, f);
    }
  }
}
