/** Grammar checks of lptree.c: `verifyrule` (left recursion), `checkloops`
    (empty loops), and what they buy: every pattern that passes has an answer
    on every subject.  Two gaps of the checks are shown by example. */
module LpegGrammar {
  import opened LpegTree

  const MAXRULES: nat := 250

  datatype Verdict = LeftRecursive | Passes(nullable: bool)

  /** `verifyrule`, with `n` the number of rules that may still be passed. */
  function VerifyRule(g: Grammar, t: Tree, nb: bool, n: nat, d: nat): Verdict
    decreases n, t
  {
    match t
    case TChar(_) => Passes(nb)
    case TSet(_) => Passes(nb)
    case TAny => Passes(nb)
    case TFalse => Passes(nb)
    case TTrue => Passes(true)
    case TBehind(_, _) => Passes(true)
    case TNot(p) => VerifyRule(g, p, true, n, d)
    case TAnd(p) => VerifyRule(g, p, true, n, d)
    case TRep(p) => VerifyRule(g, p, true, n, d)
    case TCall(r) => if n == 0 || r >= |g| then LeftRecursive else VerifyRule(g, g[r], nb, n - 1, d)
    case TSeq(p1, p2) =>
      (match VerifyRule(g, p1, false, n, d)
       case LeftRecursive => LeftRecursive
       case Passes(false) => Passes(nb)
       case Passes(true) => VerifyRule(g, p2, nb, n, d))
    case TChoice(p1, p2) =>
      (match VerifyRule(g, p1, nb, n, d)
       case LeftRecursive => LeftRecursive
       case Passes(nb1) => VerifyRule(g, p2, nb1, n, d))
    case TGrammar(_) => Passes(Nullable(g, t, d))
  }

  /** `checkloops`: some repetition has a body that may match nothing. */
  predicate CheckLoops(g: Grammar, t: Tree, d: nat)
    decreases t, d
  {
    match t
    case TRep(p) => Nullable(g, p, d) || CheckLoops(g, p, d)
    case TSeq(p1, p2) => CheckLoops(g, p1, d) || CheckLoops(g, p2, d)
    case TChoice(p1, p2) => CheckLoops(g, p1, d) || CheckLoops(g, p2, d)
    case TNot(p) => CheckLoops(g, p, d)
    case TAnd(p) => CheckLoops(g, p, d)
    case TBehind(_, p) => CheckLoops(g, p, d)
    case _ => false
  }

  /** The tree calls rule `r` of its grammar. */
  predicate Mentions(t: Tree, r: nat)
    decreases t, r
  {
    match t
    case TRep(p) => Mentions(p, r)
    case TSeq(p1, p2) => Mentions(p1, r) || Mentions(p2, r)
    case TChoice(p1, p2) => Mentions(p1, r) || Mentions(p2, r)
    case TNot(p) => Mentions(p, r)
    case TAnd(p) => Mentions(p, r)
    case TBehind(_, p) => Mentions(p, r)
    case TCall(r') => r == r'
    case _ => false
  }

  /** Rules that are never called are not checked (`key == 0`); the initial
      rule always is. */
  ghost predicate Used(g: Grammar, r: nat)
  {
    r == 0 || exists k :: 0 <= k < |g| && Mentions(g[k], r)
  }

  /** On the way `verifyrule` goes, no sub-grammar that cannot match nothing is
      reached while the accumulator `nb` is set: it would be forgotten. */
  predicate Keeps(g: Grammar, t: Tree, nb: bool, n: nat, d: nat)
    decreases n, t
  {
    match t
    case TNot(p) => Keeps(g, p, true, n, d)
    case TAnd(p) => Keeps(g, p, true, n, d)
    case TRep(p) => Keeps(g, p, true, n, d)
    case TCall(r) => n > 0 && r < |g| ==> Keeps(g, g[r], nb, n - 1, d)
    case TSeq(p1, p2) =>
      Keeps(g, p1, false, n, d) && (VerifyRule(g, p1, false, n, d) == Passes(true) ==> Keeps(g, p2, nb, n, d))
    case TChoice(p1, p2) =>
      var v := VerifyRule(g, p1, nb, n, d);
      Keeps(g, p1, nb, n, d) && (v.Passes? ==> Keeps(g, p2, v.nullable, n, d))
    case TGrammar(_) => nb ==> Nullable(g, t, d)
    case _ => true
  }

  /** Look-behind patterns call no rule. */
  predicate BehindsCallFree(t: Tree)
    decreases t, 0
  {
    match t
    case TRep(p) => BehindsCallFree(p)
    case TSeq(p1, p2) => BehindsCallFree(p1) && BehindsCallFree(p2)
    case TChoice(p1, p2) => BehindsCallFree(p1) && BehindsCallFree(p2)
    case TNot(p) => BehindsCallFree(p)
    case TAnd(p) => BehindsCallFree(p)
    case TBehind(_, p) => CallFree(p) && BehindsCallFree(p)
    case _ => true
  }

  predicate CallFree(t: Tree)
    decreases t, 0
  {
    match t
    case TRep(p) => CallFree(p)
    case TSeq(p1, p2) => CallFree(p1) && CallFree(p2)
    case TChoice(p1, p2) => CallFree(p1) && CallFree(p2)
    case TNot(p) => CallFree(p)
    case TAnd(p) => CallFree(p)
    case TBehind(_, p) => CallFree(p)
    case TCall(_) => false
    case _ => true
  }

  /** Grammars nested in the tree were accepted when they were built. */
  ghost predicate SubsAccepted(t: Tree, d: nat)
    decreases t, 1
  {
    match t
    case TRep(p) => SubsAccepted(p, d)
    case TSeq(p1, p2) => SubsAccepted(p1, d) && SubsAccepted(p2, d)
    case TChoice(p1, p2) => SubsAccepted(p1, d) && SubsAccepted(p2, d)
    case TNot(p) => SubsAccepted(p, d)
    case TAnd(p) => SubsAccepted(p, d)
    case TBehind(_, p) => SubsAccepted(p, d)
    case TGrammar(rs) => Accepted(rs, d)
    case _ => true
  }

  /** `verifygrammar` accepts the grammar, and the grammar stays within what
      `verifyrule` handles. */
  ghost predicate Accepted(rs: Grammar, d: nat)
    decreases rs, 0
  {
    && |rs| > 0
    && (forall k, r: nat :: 0 <= k < |rs| && Mentions(rs[k], r) ==> r < |rs|)
    && (forall r :: 0 <= r < |rs| ==> SubsAccepted(rs[r], d))
    && forall r :: 0 <= r < |rs| && Used(rs, r) ==> RuleAccepted(rs, rs[r], d)
  }

  predicate RuleAccepted(rs: Grammar, t: Tree, d: nat)
  {
    && VerifyRule(rs, t, false, MAXRULES, d).Passes?
    && Keeps(rs, t, false, MAXRULES, d)
    && !CheckLoops(rs, t, d)
    && BehindsCallFree(t)
  }

  /** A verdict of "not nullable" is right, and the accumulator is kept. */
  lemma {:induction false} VerdictSound(g: Grammar, t: Tree, nb: bool, n: nat, d: nat, s: seq<Byte>, i: nat, f: nat)
    requires i <= |s| && Keeps(g, t, nb, n, d) && VerifyRule(g, t, nb, n, d).Passes?
    ensures nb || Peg(g, t, s, i, f) == Ok(i) ==> VerifyRule(g, t, nb, n, d) == Passes(true)
    decreases n, t
  {
    var f' := if f > 0 then f - 1 else 0;
    match t
    case TNot(p) => VerdictSound(g, p, true, n, d, s, i, f);
    case TAnd(p) => VerdictSound(g, p, true, n, d, s, i, f);
    case TRep(p) => VerdictSound(g, p, true, n, d, s, i, f);
    case TSeq(p1, p2) =>
      VerdictSound(g, p1, false, n, d, s, i, f');
      if VerifyRule(g, p1, false, n, d).nullable { VerdictSound(g, p2, nb, n, d, s, i, f'); }
    case TChoice(p1, p2) =>
      VerdictSound(g, p1, nb, n, d, s, i, f');
      VerdictSound(g, p2, VerifyRule(g, p1, nb, n, d).nullable, n, d, s, i, f');
    case TCall(r) => VerdictSound(g, g[r], nb, n - 1, d, s, i, f');
    case TGrammar(rs) => if !Nullable(g, t, d) { NullableSound(g, t, s, i, f, d); }
    case _ =>
  }

  // ------------------------------------------------------------- termination

  function TSize(t: Tree): nat
    decreases t, 0
  {
    match t
    case TRep(p) => 1 + TSize(p)
    case TSeq(p1, p2) => 1 + TSize(p1) + TSize(p2)
    case TChoice(p1, p2) => 1 + TSize(p1) + TSize(p2)
    case TNot(p) => 1 + TSize(p)
    case TAnd(p) => 1 + TSize(p)
    case TBehind(_, p) => 1 + TSize(p)
    case TGrammar(rs) => 1 + GSize(rs)
    case _ => 1
  }

  function GSize(rs: Grammar): nat
    decreases rs, 0
  {
    if rs == [] then 0 else TSize(rs[0]) + GSize(rs[1..])
  }

  lemma {:induction false} RuleSize(rs: Grammar, r: nat)
    requires r < |rs|
    ensures TSize(rs[r]) <= GSize(rs)
    decreases |rs|
  {
    if r > 0 { RuleSize(rs[1..], r - 1); }
  }

  /** What is known of a tree inside grammar `g` while proving that it has an
      answer; `m` bounds the size of everything that can still be entered. */
  ghost predicate Safe(g: Grammar, t: Tree, d: nat, m: nat)
  {
    && !CheckLoops(g, t, d) && BehindsCallFree(t) && SubsAccepted(t, d) && TSize(t) <= m
    && (CallFree(t) ||
        (Accepted(g, d) && GSize(g) <= m && forall r: nat :: Mentions(t, r) ==> r < |g| && Used(g, r)))
  }

  ghost predicate Child(p: Tree, t: Tree)
  {
    ((t.TRep? || t.TNot? || t.TAnd?) && p == t.body) || ((t.TSeq? || t.TChoice?) && (p == t.p1 || p == t.p2))
  }

  lemma {:induction false} SafeChild(g: Grammar, t: Tree, p: Tree, d: nat, m: nat)
    requires Safe(g, t, d, m) && Child(p, t)
    ensures Safe(g, p, d, m) && TSize(p) < TSize(t)
  {
    if !CallFree(p) {
      forall r: nat | Mentions(p, r) ensures r < |g| && Used(g, r) { assert Mentions(t, r); }
    }
  }

  ghost predicate Answers(g: Grammar, t: Tree, s: seq<Byte>, i: nat)
    requires i <= |s|
  {
    exists f: nat :: Peg(g, t, s, i, f) != Out
  }

  /** `verifyrule` has followed the tree to here with `n` rules to go. */
  ghost predicate Followed(g: Grammar, t: Tree, nb: bool, n: nat, d: nat)
  {
    VerifyRule(g, t, nb, n, d).Passes? && Keeps(g, t, nb, n, d)
  }

  lemma {:induction false} AnswersTwo(g: Grammar, t: Tree, s: seq<Byte>, i: nat, p: Tree, f: nat, t': Tree, j: nat,
      f': nat)
    requires i <= |s| && j <= |s| && Peg(g, p, s, i, f) != Out && Peg(g, t', s, j, f') != Out
    requires (t.TSeq? && t.p1 == p && t.p2 == t' && Peg(g, p, s, i, f) == Ok(j)) ||
             (t.TRep? && t.body == p && t' == t && Peg(g, p, s, i, f) == Ok(j)) ||
             (t.TChoice? && t.p1 == p && t.p2 == t' && Peg(g, p, s, i, f) == Fail && j == i)
    ensures Answers(g, t, s, i)
  {
    var m := if f < f' then f' else f;
    PegStable(g, p, s, i, f, m);
    PegStable(g, t', s, j, f', m);
    assert Peg(g, t, s, i, m + 1) != Out;
  }

  /** Every accepted pattern has an answer.  The measure: size of what can be
      entered, input left, rules `verifyrule` may still pass, size of the tree. */
  lemma {:induction false} Terminates(g: Grammar, t: Tree, s: seq<Byte>, i: nat, d: nat, m: nat, nb: bool, n: nat)
    requires i <= |s| && n <= MAXRULES + 1 && Safe(g, t, d, m)
    requires n <= MAXRULES ==> Followed(g, t, nb, n, d)
    ensures Answers(g, t, s, i)
    decreases m, |s| - i, n, TSize(t), 1
  {
    match t
    case TSeq(p1, p2) => TerminatesSeq(g, t, s, i, d, m, nb, n);
    case TChoice(p1, p2) =>
      SafeChild(g, t, p1, d, m);
      SafeChild(g, t, p2, d, m);
      Terminates(g, p1, s, i, d, m, nb, n);
      var f: nat :| Peg(g, p1, s, i, f) != Out;
      if Peg(g, p1, s, i, f).Fail? {
        Terminates(g, p2, s, i, d, m, n <= MAXRULES && VerifyRule(g, p1, nb, n, d).nullable, n);
        var f': nat :| Peg(g, p2, s, i, f') != Out;
        AnswersTwo(g, t, s, i, p1, f, p2, i, f');
      } else {
        assert Peg(g, t, s, i, f + 1) != Out;
      }
    case TRep(p) =>
      SafeChild(g, t, p, d, m);
      Terminates(g, p, s, i, d, m, true, n);
      var f: nat :| Peg(g, p, s, i, f) != Out;
      var r := Peg(g, p, s, i, f);
      if r.Ok? {
        NullableSound(g, p, s, i, f, d);
        Terminates(g, t, s, r.pos, d, m, false, MAXRULES + 1);
        var f': nat :| Peg(g, t, s, r.pos, f') != Out;
        AnswersTwo(g, t, s, i, p, f, t, r.pos, f');
      } else {
        assert Peg(g, t, s, i, f + 1) != Out;
      }
    case TNot(p) =>
      SafeChild(g, t, p, d, m);
      Terminates(g, p, s, i, d, m, true, n);
      var f: nat :| Peg(g, p, s, i, f) != Out;
      assert Peg(g, t, s, i, f + 1) != Out;
    case TAnd(p) =>
      SafeChild(g, t, p, d, m);
      Terminates(g, p, s, i, d, m, true, n);
      var f: nat :| Peg(g, p, s, i, f) != Out;
      assert Peg(g, t, s, i, f + 1) != Out;
    case TBehind(k, p) =>
      if k <= i {
        Terminates(g, p, s, i - k, d, TSize(p), false, MAXRULES + 1);
        var f: nat :| Peg(g, p, s, i - k, f) != Out;
        assert Peg(g, t, s, i, f + 1) != Out;
      } else {
        assert Peg(g, t, s, i, 1) != Out;
      }
    case TCall(r) => TerminatesCall(g, r, s, i, d, m, nb, n);
    case TGrammar(rs) =>
      InitialRule(rs, d);
      Terminates(rs, rs[0], s, i, d, GSize(rs), false, MAXRULES + 1);
      var f: nat :| Peg(rs, rs[0], s, i, f) != Out;
      assert Peg(g, t, s, i, f + 1) != Out;
    case _ => assert Peg(g, t, s, i, 1) != Out;
  }

  lemma {:induction false} InitialRule(rs: Grammar, d: nat)
    requires SubsAccepted(TGrammar(rs), d)
    ensures |rs| > 0 && Safe(rs, rs[0], d, GSize(rs))
  {
    assert Accepted(rs, d) && Used(rs, 0);
    assert RuleAccepted(rs, rs[0], d) && SubsAccepted(rs[0], d);
    RuleSize(rs, 0);
    UsedRule(rs, 0);
  }

  lemma {:induction false} UsedRule(g: Grammar, k: nat)
    requires k < |g|
    ensures forall r: nat :: Mentions(g[k], r) ==> Used(g, r)
  {
  }

  lemma {:induction false} TerminatesSeq(g: Grammar, t: Tree, s: seq<Byte>, i: nat, d: nat, m: nat, nb: bool, n: nat)
    requires i <= |s| && n <= MAXRULES + 1 && Safe(g, t, d, m) && t.TSeq?
    requires n <= MAXRULES ==> Followed(g, t, nb, n, d)
    ensures Answers(g, t, s, i)
    decreases m, |s| - i, n, TSize(t), 0
  {
    var TSeq(p1, p2) := t;
    SafeChild(g, t, p1, d, m);
    SafeChild(g, t, p2, d, m);
    Terminates(g, p1, s, i, d, m, false, n);
    var f: nat :| Peg(g, p1, s, i, f) != Out;
    var r := Peg(g, p1, s, i, f);
    if r.Ok? {
      if r.pos > i || n > MAXRULES {
        Terminates(g, p2, s, r.pos, d, m, false, MAXRULES + 1);
      } else {
        VerdictSound(g, p1, false, n, d, s, i, f);
        Terminates(g, p2, s, i, d, m, nb, n);
      }
      var f': nat :| Peg(g, p2, s, r.pos, f') != Out;
      AnswersTwo(g, t, s, i, p1, f, p2, r.pos, f');
    } else {
      assert Peg(g, t, s, i, f + 1) != Out;
    }
  }

  lemma {:induction false} TerminatesCall(g: Grammar, r: nat, s: seq<Byte>, i: nat, d: nat, m: nat, nb: bool, n: nat)
    requires i <= |s| && n <= MAXRULES + 1 && Safe(g, TCall(r), d, m)
    requires n <= MAXRULES ==> Followed(g, TCall(r), nb, n, d)
    ensures Answers(g, TCall(r), s, i)
    decreases m, |s| - i, n, 1, 0
  {
    assert Mentions(TCall(r), r);
    assert RuleAccepted(g, g[r], d) && SubsAccepted(g[r], d);
    RuleSize(g, r);
    UsedRule(g, r);
    if n > MAXRULES { Terminates(g, g[r], s, i, d, m, false, MAXRULES); }
    else { Terminates(g, g[r], s, i, d, m, nb, n - 1); }
    var f: nat :| Peg(g, g[r], s, i, f) != Out;
    assert Peg(g, TCall(r), s, i, f + 1) != Out;
  }

  /** A complete pattern: no call outside a grammar (`finalfix`), no empty loop
      (`lp_star`), no call in a look-behind, and accepted grammars. */
  ghost predicate WellFormed(t: Tree, d: nat)
  {
    CallFree(t) && !CheckLoops([], t, d) && BehindsCallFree(t) && SubsAccepted(t, d)
  }

  /** A well-formed pattern has exactly one answer on every subject. */
  lemma {:induction false} WellFormedAnswers(t: Tree, d: nat, s: seq<Byte>, i: nat) returns (r: Res)
    requires WellFormed(t, d) && i <= |s|
    ensures Matches([], t, s, i, r) && forall r' :: Matches([], t, s, i, r') ==> r' == r
  {
    Terminates([], t, s, i, d, TSize(t), false, MAXRULES + 1);
    var f: nat :| Peg([], t, s, i, f) != Out;
    r := Peg([], t, s, i, f);
    forall r' | Matches([], t, s, i, r') ensures r' == r { MatchesUnique([], t, s, i, r, r'); }
  }

  // ------------------------------------------------- what verifyrule misses

  /** A <- { 'x' }* A : left recursive, because the loop can match nothing, but
      the accumulator that says so is lost at the sub-grammar. */
  function MissedLoop(): Grammar { [TSeq(TRep(TGrammar([TChar(120)])), TCall(0))] }

  lemma {:induction false} MissedLoopPasses(d: nat)
    ensures VerifyRule(MissedLoop(), MissedLoop()[0], false, MAXRULES, d).Passes?
    ensures !CheckLoops(MissedLoop(), MissedLoop()[0], d)
    ensures !Keeps(MissedLoop(), MissedLoop()[0], false, MAXRULES, d)
  {
    var sub := TGrammar([TChar(120)]);
    assert !CheckAux([TChar(120)], TChar(120), PENullable, d);
    assert !Nullable(MissedLoop(), sub, d);
    var call := TCall(0);
    assert !CheckLoops(MissedLoop(), call, d);
    assert !CheckLoops(MissedLoop(), sub, d);
    assert !CheckLoops(MissedLoop(), TRep(sub), d);
    assert VerifyRule(MissedLoop(), TRep(sub), false, MAXRULES, d) == Passes(false);
    assert !Keeps(MissedLoop(), TRep(sub), false, MAXRULES, d);
  }

  lemma {:induction false} MissedLoopDiverges(s: seq<Byte>, i: nat, f: nat)
    requires i <= |s|
    ensures Peg(MissedLoop(), MissedLoop()[0], s, i, f) == Out
    decreases f
  {
    var g := MissedLoop();
    var rep := TRep(TGrammar([TChar(120)]));
    assert g[0] == TSeq(rep, TCall(0));
    if f > 0 {
      NoFailSound(g, rep, s, i, f - 1, 0);
      var r := Peg(g, rep, s, i, f - 1);
      if r.Ok? && f > 1 {
        MissedLoopDiverges(s, r.pos, f - 2);
        assert Peg(g, TCall(0), s, r.pos, f - 1) == Peg(g, g[0], s, r.pos, f - 2);
      }
    }
  }

  /** A <- B(!A) . : a look-behind of fixed length may still call a rule. */
  function MissedBehind(): Grammar { [TSeq(TBehind(0, TNot(TCall(0))), TAny)] }

  lemma {:induction false} MissedBehindPasses(d: nat)
    ensures VerifyRule(MissedBehind(), MissedBehind()[0], false, MAXRULES, d).Passes?
    ensures !CheckLoops(MissedBehind(), MissedBehind()[0], d)
    ensures FixedLen(MissedBehind(), TNot(TCall(0)), d) == 0 && !BehindsCallFree(MissedBehind()[0])
  {
    var p := TBehind(0, TNot(TCall(0)));
    assert VerifyRule(MissedBehind(), p, false, MAXRULES, d) == Passes(true);
    assert !CheckLoops(MissedBehind(), TCall(0), d) && !CheckLoops(MissedBehind(), TNot(TCall(0)), d);
    assert !CheckLoops(MissedBehind(), p, d);
  }

  lemma {:induction false} MissedBehindDiverges(s: seq<Byte>, i: nat, f: nat)
    requires i <= |s|
    ensures Peg(MissedBehind(), MissedBehind()[0], s, i, f) == Out
    decreases f
  {
    var g := MissedBehind();
    var p := TBehind(0, TNot(TCall(0)));
    assert g[0] == TSeq(p, TAny);
    if f > 3 {
      MissedBehindDiverges(s, i, f - 4);
      assert Peg(g, TCall(0), s, i, f - 3) == Out;
      assert Peg(g, TNot(TCall(0)), s, i - 0, f - 2) == Out;
    } else if f > 1 {
      assert f == 2 || Peg(g, TCall(0), s, i, f - 3) == Out;
      assert Peg(g, TNot(TCall(0)), s, i - 0, f - 2) == Out;
    }
    if f > 0 { assert Peg(g, p, s, i, f - 1) == Out; }
  }
}
