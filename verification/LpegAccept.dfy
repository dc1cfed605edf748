/** When the checks of lptree.c reject a grammar, without reference to how they
    go about it: `verifyrule` when a chain of calls that may happen before any
    input is consumed gets too long, `checkloops` when some repetition has a body
    that may match nothing, `checkaux` when the pattern, with what matches nothing
    anyway left out, matches the empty subject. */
module LpegAccept {
  import Common
  import opened LpegTree
  import opened LpegGrammar

  // ---------------------------------------------------------------- left calls

  /** The tree may be passed without consuming input, calls followed to depth `k`. */
  predicate MayPass(g: Grammar, t: Tree, k: nat, d: nat)
    decreases k, t
  {
    match t
    case TChar(_) => false
    case TSet(_) => false
    case TAny => false
    case TFalse => false
    case TSeq(p1, p2) => MayPass(g, p1, k, d) && MayPass(g, p2, k, d)
    case TChoice(p1, p2) => MayPass(g, p1, k, d) || MayPass(g, p2, k, d)
    case TCall(r) => k > 0 && r < |g| && MayPass(g, g[r], k - 1, d)
    case TGrammar(_) => Nullable(g, t, d)
    case _ => true
  }

  ghost predicate Passable(g: Grammar, t: Tree, d: nat)
  {
    exists k: nat :: MayPass(g, t, k, d)
  }

  /** The tree may call rule `r` before it has consumed any input. */
  ghost predicate LeftCall(g: Grammar, t: Tree, r: nat, d: nat)
    decreases t, r
  {
    match t
    case TNot(p) => LeftCall(g, p, r, d)
    case TAnd(p) => LeftCall(g, p, r, d)
    case TRep(p) => LeftCall(g, p, r, d)
    case TSeq(p1, p2) => LeftCall(g, p1, r, d) || (Passable(g, p1, d) && LeftCall(g, p2, r, d))
    case TChoice(p1, p2) => LeftCall(g, p1, r, d) || LeftCall(g, p2, r, d)
    case TCall(r') => r == r'
    case _ => false
  }

  /** From the tree a chain of such calls goes through more than `n` rules, or to
      a rule that does not exist. */
  ghost predicate LongChain(g: Grammar, t: Tree, n: nat, d: nat)
    decreases n
  {
    exists r: nat :: LeftCall(g, t, r, d) && (r >= |g| || n == 0 || LongChain(g, g[r], n - 1, d))
  }

  ghost predicate Extends(g: Grammar, r: nat, n: nat, d: nat)
  {
    r >= |g| || n == 0 || LongChain(g, g[r], n - 1, d)
  }

  lemma {:induction false} ChainBy(g: Grammar, t: Tree, r: nat, n: nat, d: nat)
    requires LeftCall(g, t, r, d) && Extends(g, r, n, d)
    ensures LongChain(g, t, n, d)
  {
  }

  lemma {:induction false} ChainCall(g: Grammar, t: Tree, n: nat, d: nat) returns (r: nat)
    requires LongChain(g, t, n, d)
    ensures LeftCall(g, t, r, d) && Extends(g, r, n, d)
  {
    r :| LeftCall(g, t, r, d) && (r >= |g| || n == 0 || LongChain(g, g[r], n - 1, d));
  }

  /** What `verifyrule` says can be passed can. */
  lemma {:induction false} VerdictPasses(g: Grammar, t: Tree, nb: bool, n: nat, d: nat)
    requires VerifyRule(g, t, nb, n, d) == Passes(true)
    ensures nb || MayPass(g, t, n, d)
    decreases n, t
  {
    match t
    case TSeq(p1, p2) =>
      if VerifyRule(g, p1, false, n, d) == Passes(true) {
        VerdictPasses(g, p1, false, n, d);
        VerdictPasses(g, p2, nb, n, d);
      }
    case TChoice(p1, p2) =>
      var nb1 := VerifyRule(g, p1, nb, n, d).nullable;
      if nb1 { VerdictPasses(g, p1, nb, n, d); }
      VerdictPasses(g, p2, nb1, n, d);
    case TCall(r) => VerdictPasses(g, g[r], nb, n - 1, d);
    case _ =>
  }

  /** ... and the other way round, where the accumulator is kept. */
  lemma {:induction false} PassesVerdict(g: Grammar, t: Tree, nb: bool, n: nat, d: nat, k: nat)
    requires Keeps(g, t, nb, n, d) && VerifyRule(g, t, nb, n, d).Passes? && (nb || MayPass(g, t, k, d))
    ensures VerifyRule(g, t, nb, n, d) == Passes(true)
    decreases n, t
  {
    match t
    case TNot(p) => PassesVerdict(g, p, true, n, d, k);
    case TAnd(p) => PassesVerdict(g, p, true, n, d, k);
    case TRep(p) => PassesVerdict(g, p, true, n, d, k);
    case TSeq(p1, p2) =>
      if MayPass(g, p1, k, d) { PassesVerdict(g, p1, false, n, d, k); }
      if VerifyRule(g, p1, false, n, d) == Passes(true) { PassesVerdict(g, p2, nb, n, d, k); }
    case TChoice(p1, p2) =>
      if nb || MayPass(g, p1, k, d) { PassesVerdict(g, p1, nb, n, d, k); }
      PassesVerdict(g, p2, VerifyRule(g, p1, nb, n, d).nullable, n, d, k);
    case TCall(r) => PassesVerdict(g, g[r], nb, n - 1, d, if k > 0 then k - 1 else 0);
    case _ =>
  }

  /** A grammar is rejected only for such a chain. */
  lemma {:induction false} RejectedFor(g: Grammar, t: Tree, nb: bool, n: nat, d: nat)
    requires VerifyRule(g, t, nb, n, d).LeftRecursive?
    ensures LongChain(g, t, n, d)
    decreases n, t, 1
  {
    match t
    case TNot(p) => ChainUp(g, p, t, true, n, d);
    case TAnd(p) => ChainUp(g, p, t, true, n, d);
    case TRep(p) => ChainUp(g, p, t, true, n, d);
    case TSeq(p1, p2) =>
      if VerifyRule(g, p1, false, n, d).LeftRecursive? { ChainUp(g, p1, t, false, n, d); }
      else {
        VerdictPasses(g, p1, false, n, d);
        assert Passable(g, p1, d);
        ChainUp(g, p2, t, nb, n, d);
      }
    case TChoice(p1, p2) =>
      var v := VerifyRule(g, p1, nb, n, d);
      if v.LeftRecursive? { ChainUp(g, p1, t, nb, n, d); } else { ChainUp(g, p2, t, v.nullable, n, d); }
    case TCall(r) =>
      if n > 0 && r < |g| { RejectedFor(g, g[r], nb, n - 1, d); }
      ChainBy(g, t, r, n, d);
    case _ =>
  }

  /** A chain from a part of the tree that may come first is one from the tree. */
  lemma {:induction false} ChainUp(g: Grammar, p: Tree, t: Tree, nb: bool, n: nat, d: nat)
    requires p < t && VerifyRule(g, p, nb, n, d).LeftRecursive?
    requires forall r: nat :: LeftCall(g, p, r, d) ==> LeftCall(g, t, r, d)
    ensures LongChain(g, t, n, d)
    decreases n, p, 2
  {
    RejectedFor(g, p, nb, n, d);
    var r := ChainCall(g, p, n, d);
    ChainBy(g, t, r, n, d);
  }

  /** ... and, where the accumulator is kept, for every one. */
  lemma {:induction false} RejectsChain(g: Grammar, t: Tree, nb: bool, n: nat, d: nat, r: nat)
    requires Keeps(g, t, nb, n, d) && LeftCall(g, t, r, d) && Extends(g, r, n, d)
    ensures VerifyRule(g, t, nb, n, d).LeftRecursive?
    decreases n, t
  {
    match t
    case TNot(p) => RejectsChain(g, p, true, n, d, r);
    case TAnd(p) => RejectsChain(g, p, true, n, d, r);
    case TRep(p) => RejectsChain(g, p, true, n, d, r);
    case TSeq(p1, p2) =>
      if LeftCall(g, p1, r, d) { RejectsChain(g, p1, false, n, d, r); }
      else if VerifyRule(g, p1, false, n, d).Passes? {
        var k: nat :| MayPass(g, p1, k, d);
        PassesVerdict(g, p1, false, n, d, k);
        RejectsChain(g, p2, nb, n, d, r);
      }
    case TChoice(p1, p2) =>
      if LeftCall(g, p1, r, d) { RejectsChain(g, p1, nb, n, d, r); }
      else if VerifyRule(g, p1, nb, n, d).Passes? {
        RejectsChain(g, p2, VerifyRule(g, p1, nb, n, d).nullable, n, d, r);
      }
    case TCall(_) =>
      if n > 0 && r < |g| {
        var r' := ChainCall(g, g[r], n - 1, d);
        RejectsChain(g, g[r], nb, n - 1, d, r');
      }
    case _ =>
  }

  /** `verifyrule` rejects exactly when a chain of calls before any input is too
      long or leads nowhere, where the accumulator is kept. */
  lemma {:induction false} RejectedIff(g: Grammar, t: Tree, nb: bool, n: nat, d: nat)
    requires Keeps(g, t, nb, n, d)
    ensures VerifyRule(g, t, nb, n, d).LeftRecursive? <==> LongChain(g, t, n, d)
  {
    if VerifyRule(g, t, nb, n, d).LeftRecursive? { RejectedFor(g, t, nb, n, d); }
    if LongChain(g, t, n, d) {
      var r := ChainCall(g, t, n, d);
      RejectsChain(g, t, nb, n, d, r);
    }
  }

  // ---------------------------------------------------------- legal grammars

  /** Rule `a` may come to call rule `b` before any input, in at most `m` calls. */
  ghost predicate LeftReaches(g: Grammar, a: nat, b: nat, m: nat, d: nat)
    decreases m
  {
    m > 0 && a < |g| && exists c: nat :: LeftCall(g, g[a], c, d) && (c == b || LeftReaches(g, c, b, m - 1, d))
  }

  /** No rule reaches itself, and all rules exist. */
  ghost predicate Legal(g: Grammar, d: nat)
  {
    && (forall a, m: nat :: 0 <= a < |g| ==> !LeftReaches(g, a, a, m, d))
    && (forall a, r: nat :: 0 <= a < |g| && LeftCall(g, g[a], r, d) ==> r < |g|)
  }

  lemma {:induction false} ReachFurther(g: Grammar, a: nat, b: nat, c: nat, m: nat, d: nat)
    requires LeftReaches(g, a, b, m, d) && b < |g| && LeftCall(g, g[b], c, d)
    ensures LeftReaches(g, a, c, m + 1, d)
    decreases m
  {
    var e: nat :| LeftCall(g, g[a], e, d) && (e == b || LeftReaches(g, e, b, m - 1, d));
    if e == b { assert LeftReaches(g, b, c, 1, d); ReachMore(g, b, c, 1, m, d); }
    else { ReachFurther(g, e, b, c, m - 1, d); }
    assert LeftReaches(g, e, c, m, d);
  }

  lemma {:induction false} ReachMore(g: Grammar, a: nat, b: nat, m: nat, m': nat, d: nat)
    requires LeftReaches(g, a, b, m, d) && m <= m'
    ensures LeftReaches(g, a, b, m', d)
    decreases m
  {
    var c: nat :| LeftCall(g, g[a], c, d) && (c == b || LeftReaches(g, c, b, m - 1, d));
    if c != b { ReachMore(g, c, b, m - 1, m' - 1, d); }
  }

  /** Rules from which `a` can be reached. */
  ghost predicate Behind(g: Grammar, seen: set<nat>, a: nat, d: nat)
  {
    forall x :: x in seen ==> x < |g| && exists m: nat :: LeftReaches(g, x, a, m, d)
  }

  lemma {:induction false} BehindNext(g: Grammar, seen: set<nat>, a: nat, r: nat, d: nat)
    requires Behind(g, seen, a, d) && a < |g| && LeftCall(g, g[a], r, d)
    ensures Behind(g, seen + {a}, r, d)
  {
    forall x | x in seen + {a} ensures x < |g| && exists m: nat :: LeftReaches(g, x, r, m, d) {
      if x in seen {
        var m: nat :| LeftReaches(g, x, a, m, d);
        ReachFurther(g, x, a, r, m, d);
      } else {
        assert LeftReaches(g, a, r, 1, d);
      }
    }
  }

  /** In a legal grammar a chain of calls has no more rules than there are. */
  lemma {:induction false} ChainFits(g: Grammar, a: nat, n: nat, d: nat, seen: set<nat>)
    requires Legal(g, d) && a < |g| && a !in seen && Behind(g, seen, a, d) && LongChain(g, g[a], n, d)
    ensures n + |seen| + 2 <= |g|
    decreases n
  {
    var r := ChainCall(g, g[a], n, d);
    BehindNext(g, seen, a, r, d);
    assert r !in seen + {a};
    if n == 0 {
      Common.SubsetSize(seen + {a, r}, Common.Below(|g|));
      assert |seen + {a, r}| == |seen| + 2;
    } else {
      ChainFits(g, r, n - 1, d, seen + {a});
    }
  }

  /** Every grammar of at most `MAXRULES` rules in which no rule can call itself
      before consuming input is accepted. */
  lemma {:induction false} LegalPasses(g: Grammar, r: nat, d: nat)
    requires Legal(g, d) && |g| <= MAXRULES && r < |g|
    ensures VerifyRule(g, g[r], false, MAXRULES, d).Passes?
  {
    if VerifyRule(g, g[r], false, MAXRULES, d).LeftRecursive? {
      RejectedFor(g, g[r], false, MAXRULES, d);
      ChainFits(g, r, MAXRULES, d, {});
    }
  }

  // ------------------------------------------------------------------ checkloops

  /** `p` occurs in `t`, not inside a nested grammar. */
  predicate Occurs(p: Tree, t: Tree)
    decreases t
  {
    p == t ||
    match t
    case TRep(q) => Occurs(p, q)
    case TSeq(p1, p2) => Occurs(p, p1) || Occurs(p, p2)
    case TChoice(p1, p2) => Occurs(p, p1) || Occurs(p, p2)
    case TNot(q) => Occurs(p, q)
    case TAnd(q) => Occurs(p, q)
    case TBehind(_, q) => Occurs(p, q)
    case _ => false
  }

  /** Some repetition in the tree has a body that may match nothing. */
  ghost predicate EmptyLoop(g: Grammar, t: Tree, d: nat)
  {
    exists p :: Occurs(TRep(p), t) && Nullable(g, p, d)
  }

  lemma {:induction false} LoopFound(g: Grammar, t: Tree, d: nat, p: Tree)
    requires Occurs(TRep(p), t) && Nullable(g, p, d)
    ensures CheckLoops(g, t, d)
    decreases t
  {
    if t != TRep(p) {
      match t
      case TRep(q) => LoopFound(g, q, d, p);
      case TSeq(p1, p2) => if Occurs(TRep(p), p1) { LoopFound(g, p1, d, p); } else { LoopFound(g, p2, d, p); }
      case TChoice(p1, p2) => if Occurs(TRep(p), p1) { LoopFound(g, p1, d, p); } else { LoopFound(g, p2, d, p); }
      case TNot(q) => LoopFound(g, q, d, p);
      case TAnd(q) => LoopFound(g, q, d, p);
      case TBehind(_, q) => LoopFound(g, q, d, p);
      case _ =>
    }
  }

  lemma {:induction false} LoopThere(g: Grammar, t: Tree, d: nat) returns (p: Tree)
    requires CheckLoops(g, t, d)
    ensures Occurs(TRep(p), t) && Nullable(g, p, d)
    decreases t
  {
    p := TTrue;
    match t {
      case TRep(q) => if Nullable(g, q, d) { p := q; } else { p := LoopThere(g, q, d); }
      case TSeq(p1, p2) => if CheckLoops(g, p1, d) { p := LoopThere(g, p1, d); } else { p := LoopThere(g, p2, d); }
      case TChoice(p1, p2) => if CheckLoops(g, p1, d) { p := LoopThere(g, p1, d); } else { p := LoopThere(g, p2, d); }
      case TNot(q) => p := LoopThere(g, q, d);
      case TAnd(q) => p := LoopThere(g, q, d);
      case TBehind(_, q) => p := LoopThere(g, q, d);
      case _ =>
    }
  }

  /** `checkloops` rejects exactly the trees with an empty loop. */
  lemma {:induction false} LoopsIff(g: Grammar, t: Tree, d: nat)
    ensures CheckLoops(g, t, d) <==> EmptyLoop(g, t, d)
  {
    if CheckLoops(g, t, d) { var p := LoopThere(g, t, d); }
    if EmptyLoop(g, t, d) {
      var p :| Occurs(TRep(p), t) && Nullable(g, p, d);
      LoopFound(g, t, d, p);
    }
  }

  // ------------------------------------------------------- nullable and nofail

  /** The tree with every part replaced whose answer `checkaux` knows from its form
      alone: repetitions match nothing, and so do predicates for nullability; they
      fail where the question is whether the pattern can fail. */
  function Bare(pred: Property, t: Tree): Tree
    decreases t, 0
  {
    match t
    case TRep(_) => TTrue
    case TNot(_) => if pred.PENullable? then TTrue else TFalse
    case TBehind(_, _) => if pred.PENullable? then TTrue else TFalse
    case TAnd(p) => if pred.PENullable? then TTrue else Bare(pred, p)
    case TSeq(p1, p2) => TSeq(Bare(pred, p1), Bare(pred, p2))
    case TChoice(p1, p2) => TChoice(Bare(pred, p1), Bare(pred, p2))
    case TGrammar(rs) => TGrammar(BareAll(pred, rs))
    case _ => t
  }

  function BareAll(pred: Property, g: Grammar): (b: Grammar)
    ensures |b| == |g| && forall i :: 0 <= i < |g| ==> b[i] == Bare(pred, g[i])
    decreases g, 0
  {
    if g == [] then [] else [Bare(pred, g[0])] + BareAll(pred, g[1..])
  }

  /** `nullable` and `nofail` say what the bare pattern does on the empty subject,
      wherever they need no more than `d` nested calls to tell. */
  lemma {:induction false} CheckIff(g: Grammar, t: Tree, pred: Property, d: nat) returns (f: nat)
    requires Tells(g, t, pred, d)
    ensures Peg(BareAll(pred, g), Bare(pred, t), [], 0, f) == if CheckAux(g, t, pred, d) then Ok(0) else Fail
    decreases d, t
  {
    match t {
      case TSeq(p1, p2) => f := TwoBare(g, p1, p2, t, pred, d);
      case TChoice(p1, p2) => f := TwoBare(g, p1, p2, t, pred, d);
      case TAnd(p) => if pred.PENullable? { f := 1; } else { f := CheckIff(g, p, pred, d); }
      case TCall(r) =>
        f := CheckIff(g, g[r], pred, d - 1);
        f := f + 1;
      case TGrammar(rs) =>
        f := CheckIff(rs, rs[0], pred, d);
        f := f + 1;
      case _ => f := 1;
    }
  }

  lemma {:induction false} TwoBare(g: Grammar, p1: Tree, p2: Tree, t: Tree, pred: Property, d: nat) returns (f: nat)
    requires (t == TSeq(p1, p2) || t == TChoice(p1, p2)) && Tells(g, t, pred, d)
    ensures Peg(BareAll(pred, g), Bare(pred, t), [], 0, f) == if CheckAux(g, t, pred, d) then Ok(0) else Fail
    decreases d, t, 0
  {
    var b := BareAll(pred, g);
    var f1 := CheckIff(g, p1, pred, d);
    f := f1 + 1;
    if CheckAux(g, p1, pred, d) == t.TSeq? {
      var f2 := CheckIff(g, p2, pred, d);
      var m := if f1 < f2 then f2 else f1;
      PegStable(b, Bare(pred, p1), [], 0, f1, m);
      PegStable(b, Bare(pred, p2), [], 0, f2, m);
      f := m + 1;
    }
  }

  /** Every call on the way is followed within depth `d`. */
  predicate Tells(g: Grammar, t: Tree, pred: Property, d: nat)
    decreases d, t
  {
    match t
    case TAnd(p) => pred.PENullable? || Tells(g, p, pred, d)
    case TSeq(p1, p2) => Tells(g, p1, pred, d) && (CheckAux(g, p1, pred, d) ==> Tells(g, p2, pred, d))
    case TChoice(p1, p2) => Tells(g, p1, pred, d) && (!CheckAux(g, p1, pred, d) ==> Tells(g, p2, pred, d))
    case TCall(r) => d > 0 && r < |g| && Tells(g, g[r], pred, d - 1)
    case TGrammar(rs) => |rs| > 0 && Tells(rs, rs[0], pred, d)
    case _ => true
  }
}
