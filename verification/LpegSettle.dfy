/** The analyses of lpcode.c follow calls.  On patterns whose grammars were
    accepted they reach only so many nested calls, so that a large enough bound
    on nested calls is never used up: the analyses settle, and so does the code
    that is generated with their help. */
module LpegSettle {
  import opened LpegTree
  import opened LpegVm
  import opened LpegCode
  import opened LpegGrammar
  import J = LpegJumps

  /** A tree in grammar `g` whose grammars, and `g` if it has calls, were
      accepted; `m` bounds the size of everything that can be entered. */
  ghost predicate Sure(g: Grammar, t: Tree, d0: nat, m: nat)
  {
    && SubsAccepted(t, d0) && TSize(t) <= m
    && (CallFree(t) ||
        (Accepted(g, d0) && GSize(g) <= m && forall r: nat :: Mentions(t, r) ==> r < |g| && Used(g, r)))
  }

  ghost predicate Part(p: Tree, t: Tree)
  {
    Child(p, t) || (t.TBehind? && p == t.body)
  }

  lemma {:induction false} SurePart(g: Grammar, t: Tree, p: Tree, d0: nat, m: nat)
    requires Sure(g, t, d0, m) && Part(p, t)
    ensures Sure(g, p, d0, m) && TSize(p) < TSize(t)
  {
    if !CallFree(p) {
      forall r: nat | Mentions(p, r) ensures r < |g| && Used(g, r) { assert Mentions(t, r); }
    }
  }

  /** The rule of a call, followed from its start. */
  lemma {:induction false} SureRule(g: Grammar, r: nat, d0: nat, m: nat)
    requires Sure(g, TCall(r), d0, m)
    ensures r < |g| && Sure(g, g[r], d0, m) && Followed(g, g[r], false, MAXRULES, d0) && BehindsCallFree(g[r])
  {
    assert Mentions(TCall(r), r);
    assert RuleAccepted(g, g[r], d0) && SubsAccepted(g[r], d0);
    RuleSize(g, r);
    UsedRule(g, r);
  }

  /** Any rule of a nested grammar. */
  lemma {:induction false} SureGrammar(g: Grammar, rs: Grammar, k: nat, d0: nat, m: nat)
    requires Sure(g, TGrammar(rs), d0, m) && k < |rs|
    ensures Sure(rs, rs[k], d0, GSize(rs)) && GSize(rs) < m
  {
    assert Accepted(rs, d0) && SubsAccepted(rs[k], d0);
    RuleSize(rs, k);
    UsedRule(rs, k);
  }

  lemma {:induction false} SureFirst(g: Grammar, rs: Grammar, d0: nat, m: nat)
    requires Sure(g, TGrammar(rs), d0, m)
    ensures |rs| > 0 && Sure(rs, rs[0], d0, GSize(rs)) && GSize(rs) < m
    ensures Followed(rs, rs[0], false, MAXRULES, d0) && BehindsCallFree(rs[0])
  {
    assert Accepted(rs, d0) && Used(rs, 0);
    assert RuleAccepted(rs, rs[0], d0);
    SureGrammar(g, rs, 0, d0, m);
  }

  /** Up to `MAXRULES` the way has been followed by `verifyrule`. */
  ghost predicate On(g: Grammar, t: Tree, nb: bool, n: nat, d0: nat)
  {
    n <= MAXRULES + 1 && (n <= MAXRULES ==> Followed(g, t, nb, n, d0))
  }

  // ------------------------------------------------------------------- checkaux

  /** More depth makes `checkaux` only more precise. */
  lemma {:induction false} CheckMono(g: Grammar, t: Tree, d: nat, d': nat)
    requires d <= d'
    ensures Nullable(g, t, d') ==> Nullable(g, t, d)
    ensures NoFail(g, t, d) ==> NoFail(g, t, d')
    decreases d, t
  {
    match t
    case TAnd(p) => CheckMono(g, p, d, d');
    case TSeq(p1, p2) => CheckMono(g, p1, d, d'); CheckMono(g, p2, d, d');
    case TChoice(p1, p2) => CheckMono(g, p1, d, d'); CheckMono(g, p2, d, d');
    case TCall(r) => if d > 0 && r < |g| { CheckMono(g, g[r], d - 1, d' - 1); }
    case TGrammar(rs) => if |rs| > 0 { CheckMono(rs, rs[0], d, d'); }
    case _ =>
  }

  /** `checkaux` follows calls only where `verifyrule` has. */
  lemma {:induction false} CheckSettles(g: Grammar, t: Tree, pred: Property, d0: nat, m: nat, nb: bool, n: nat, d: nat,
      d': nat)
    requires Sure(g, t, d0, m) && On(g, t, nb, n, d0) && n + MAXRULES * m <= d <= d'
    ensures CheckAux(g, t, pred, d) == CheckAux(g, t, pred, d')
    ensures n <= MAXRULES && (nb || CheckAux(g, t, pred, d)) ==> VerifyRule(g, t, nb, n, d0) == Passes(true)
    decreases m, n, TSize(t)
  {
    match t
    case TRep(p) => SurePart(g, t, p, d0, m); CheckSettles(g, p, pred, d0, m, true, n, d, d');
    case TNot(p) => SurePart(g, t, p, d0, m); CheckSettles(g, p, pred, d0, m, true, n, d, d');
    case TAnd(p) => SurePart(g, t, p, d0, m); CheckSettles(g, p, pred, d0, m, true, n, d, d');
    case TSeq(p1, p2) =>
      SurePart(g, t, p1, d0, m);
      SurePart(g, t, p2, d0, m);
      CheckSettles(g, p1, pred, d0, m, false, n, d, d');
      if n > MAXRULES || VerifyRule(g, p1, false, n, d0) == Passes(true) {
        CheckSettles(g, p2, pred, d0, m, nb, n, d, d');
      }
    case TChoice(p1, p2) =>
      SurePart(g, t, p1, d0, m);
      SurePart(g, t, p2, d0, m);
      CheckSettles(g, p1, pred, d0, m, nb, n, d, d');
      CheckSettles(g, p2, pred, d0, m, n <= MAXRULES && VerifyRule(g, p1, nb, n, d0).nullable, n, d, d');
    case TCall(r) =>
      SureRule(g, r, d0, m);
      CheckSettles(g, g[r], pred, d0, m, n <= MAXRULES && nb, n - 1, d - 1, d' - 1);
    case TGrammar(rs) =>
      SureFirst(g, rs, d0, m);
      CheckSettles(rs, rs[0], pred, d0, GSize(rs), false, MAXRULES, d, d');
      if CheckAux(g, t, pred, d) {
        if pred.PENofail? { NoFailFirst(g, t, d); }
        if d0 <= d { CheckMono(g, t, d0, d); }
        else { CheckSettles(rs, rs[0], PENullable, d0, GSize(rs), false, MAXRULES, d, d0); }
      }
    case _ =>
  }

  // ------------------------------------------------------------------- getfirst

  lemma {:induction false} FirstSettles(g: Grammar, t: Tree, fl: Charset, d0: nat, m: nat, nb: bool, n: nat, d: nat,
      d': nat)
    requires Sure(g, t, d0, m) && On(g, t, nb, n, d0) && n + MAXRULES * m <= d <= d'
    ensures GetFirst(g, t, fl, d) == GetFirst(g, t, fl, d')
    decreases m, n, TSize(t)
  {
    match t
    case TRep(p) => SurePart(g, t, p, d0, m); FirstSettles(g, p, fl, d0, m, true, n, d, d');
    case TAnd(p) => SurePart(g, t, p, d0, m); FirstSettles(g, p, fl, d0, m, true, n, d, d');
    case TSeq(p1, p2) =>
      SurePart(g, t, p1, d0, m);
      SurePart(g, t, p2, d0, m);
      CheckSettles(g, p1, PENullable, d0, m, false, n, d, d');
      if Nullable(g, p1, d) {
        FirstSettles(g, p2, fl, d0, m, nb, n, d, d');
        FirstSettles(g, p1, GetFirst(g, p2, fl, d).cs, d0, m, false, n, d, d');
      } else {
        FirstSettles(g, p1, FULL, d0, m, false, n, d, d');
      }
    case TChoice(p1, p2) =>
      SurePart(g, t, p1, d0, m);
      SurePart(g, t, p2, d0, m);
      FirstSettles(g, p1, fl, d0, m, nb, n, d, d');
      FirstSettles(g, p2, fl, d0, m, n <= MAXRULES && VerifyRule(g, p1, nb, n, d0).nullable, n, d, d');
    case TCall(r) =>
      SureRule(g, r, d0, m);
      FirstSettles(g, g[r], fl, d0, m, n <= MAXRULES && nb, n - 1, d - 1, d' - 1);
    case TGrammar(rs) =>
      SureFirst(g, rs, d0, m);
      FirstSettles(rs, rs[0], fl, d0, GSize(rs), false, MAXRULES, d, d');
    case _ =>
  }

  // ------------------------------------------------------- ends of the recursion

  /** The recursion of `checkaux` ends: it follows at most `d` nested calls. */
  predicate CheckWithin(g: Grammar, t: Tree, pred: Property, d: nat)
    decreases d, t
  {
    match t
    case TAnd(p) => pred.PENullable? || CheckWithin(g, p, pred, d)
    case TSeq(p1, p2) => CheckWithin(g, p1, pred, d) && (CheckAux(g, p1, pred, d) ==> CheckWithin(g, p2, pred, d))
    case TChoice(p1, p2) => CheckWithin(g, p2, pred, d) && (!CheckAux(g, p2, pred, d) ==> CheckWithin(g, p1, pred, d))
    case TCall(r) => d > 0 && r < |g| && CheckWithin(g, g[r], pred, d - 1)
    case TGrammar(rs) => |rs| > 0 && CheckWithin(rs, rs[0], pred, d)
    case _ => true
  }

  /** The recursion of `getfirst` ends; it looks into predicates and look-behinds
      too, although it has no use for what it finds there. */
  predicate FirstWithin(g: Grammar, t: Tree, d: nat)
    decreases d, t
  {
    match t
    case TRep(p) => FirstWithin(g, p, d)
    case TAnd(p) => FirstWithin(g, p, d)
    case TNot(p) => IsCharset(p) || FirstWithin(g, p, d)
    case TBehind(_, p) => FirstWithin(g, p, d)
    case TSeq(p1, p2) =>
      CheckWithin(g, p1, PENullable, d) && FirstWithin(g, p1, d) && (Nullable(g, p1, d) ==> FirstWithin(g, p2, d))
    case TChoice(p1, p2) => FirstWithin(g, p1, d) && FirstWithin(g, p2, d)
    case TCall(r) => d > 0 && r < |g| && FirstWithin(g, g[r], d - 1)
    case TGrammar(rs) => |rs| > 0 && FirstWithin(rs, rs[0], d)
    case _ => true
  }

  lemma {:induction false} CheckEnds(g: Grammar, t: Tree, pred: Property, d0: nat, m: nat, nb: bool, n: nat, d: nat)
    requires Sure(g, t, d0, m) && On(g, t, nb, n, d0) && n + MAXRULES * m <= d
    ensures CheckWithin(g, t, pred, d)
    decreases m, n, TSize(t)
  {
    match t
    case TAnd(p) => SurePart(g, t, p, d0, m); CheckEnds(g, p, pred, d0, m, true, n, d);
    case TSeq(p1, p2) =>
      SurePart(g, t, p1, d0, m);
      SurePart(g, t, p2, d0, m);
      CheckEnds(g, p1, pred, d0, m, false, n, d);
      CheckSettles(g, p1, pred, d0, m, false, n, d, d);
      if CheckAux(g, p1, pred, d) { CheckEnds(g, p2, pred, d0, m, nb, n, d); }
    case TChoice(p1, p2) =>
      SurePart(g, t, p1, d0, m);
      SurePart(g, t, p2, d0, m);
      CheckEnds(g, p1, pred, d0, m, nb, n, d);
      CheckEnds(g, p2, pred, d0, m, n <= MAXRULES && VerifyRule(g, p1, nb, n, d0).nullable, n, d);
    case TCall(r) =>
      SureRule(g, r, d0, m);
      CheckEnds(g, g[r], pred, d0, m, n <= MAXRULES && nb, n - 1, d - 1);
    case TGrammar(rs) =>
      SureFirst(g, rs, d0, m);
      CheckEnds(rs, rs[0], pred, d0, GSize(rs), false, MAXRULES, d);
    case _ =>
  }

  /** On accepted patterns `getfirst` ends. */
  lemma {:induction false} FirstEnds(g: Grammar, t: Tree, d0: nat, m: nat, nb: bool, n: nat, d: nat)
    requires Sure(g, t, d0, m) && On(g, t, nb, n, d0) && BehindsCallFree(t) && n + (MAXRULES + 1) * m <= d
    ensures FirstWithin(g, t, d)
    decreases m, n, TSize(t)
  {
    match t
    case TRep(p) => SurePart(g, t, p, d0, m); FirstEnds(g, p, d0, m, true, n, d);
    case TAnd(p) => SurePart(g, t, p, d0, m); FirstEnds(g, p, d0, m, true, n, d);
    case TNot(p) => SurePart(g, t, p, d0, m); FirstEnds(g, p, d0, m, true, n, d);
    case TBehind(_, p) => FirstEnds(g, p, d0, TSize(p), false, MAXRULES + 1, d);
    case TSeq(p1, p2) =>
      SurePart(g, t, p1, d0, m);
      SurePart(g, t, p2, d0, m);
      CheckEnds(g, p1, PENullable, d0, m, false, n, d);
      CheckSettles(g, p1, PENullable, d0, m, false, n, d, d);
      FirstEnds(g, p1, d0, m, false, n, d);
      if Nullable(g, p1, d) { FirstEnds(g, p2, d0, m, nb, n, d); }
    case TChoice(p1, p2) =>
      SurePart(g, t, p1, d0, m);
      SurePart(g, t, p2, d0, m);
      FirstEnds(g, p1, d0, m, nb, n, d);
      FirstEnds(g, p2, d0, m, n <= MAXRULES && VerifyRule(g, p1, nb, n, d0).nullable, n, d);
    case TCall(r) =>
      SureRule(g, r, d0, m);
      FirstEnds(g, g[r], d0, m, n <= MAXRULES && nb, n - 1, d - 1);
    case TGrammar(rs) =>
      SureFirst(g, rs, d0, m);
      FirstEnds(rs, rs[0], d0, GSize(rs), false, MAXRULES, d);
    case _ =>
  }

  // ------------------------------------------------------------------- headfail

  /** `headfail` asks `nofail` about trees off the way, so it needs more. */
  lemma {:induction false} HeadFailSettles(g: Grammar, t: Tree, d0: nat, m: nat, nb: bool, n: nat, d: nat, d': nat)
    requires Sure(g, t, d0, m) && On(g, t, nb, n, d0) && n + MAXRULES * (m + 1) + 1 <= d <= d'
    ensures HeadFail(g, t, d) == HeadFail(g, t, d')
    decreases m, n, TSize(t)
  {
    match t
    case TAnd(p) => SurePart(g, t, p, d0, m); HeadFailSettles(g, p, d0, m, true, n, d, d');
    case TSeq(p1, p2) =>
      SurePart(g, t, p1, d0, m);
      SurePart(g, t, p2, d0, m);
      CheckSettles(g, p2, PENofail, d0, m, false, MAXRULES + 1, d, d');
      HeadFailSettles(g, p1, d0, m, false, n, d, d');
    case TChoice(p1, p2) =>
      SurePart(g, t, p1, d0, m);
      SurePart(g, t, p2, d0, m);
      HeadFailSettles(g, p1, d0, m, nb, n, d, d');
      HeadFailSettles(g, p2, d0, m, n <= MAXRULES && VerifyRule(g, p1, nb, n, d0).nullable, n, d, d');
    case TCall(r) =>
      SureRule(g, r, d0, m);
      HeadFailSettles(g, g[r], d0, m, n <= MAXRULES && nb, n - 1, d - 1, d' - 1);
    case TGrammar(rs) =>
      SureFirst(g, rs, d0, m);
      HeadFailSettles(rs, rs[0], d0, GSize(rs), false, MAXRULES, d, d');
    case _ =>
  }

  // ------------------------------------------------------------------- fixedlen

  /** Rules whose calls are not being followed. */
  function Unseen(g: Grammar, seen: set<nat>): set<nat>
  {
    set r: nat | r < |g| && r !in seen
  }

  /** `fixedlen`, which marks calls while it follows them (`callrecursive`) and
      gives up at a marked one. */
  function FixedMarked(g: Grammar, t: Tree, seen: set<nat>, m: nat): (n: int)
    requires TSize(t) <= m && (CallFree(t) || GSize(g) <= m)
    ensures n >= -1
    decreases m, |Unseen(g, seen)|, TSize(t)
  {
    match t
    case TChar(_) => 1
    case TSet(_) => 1
    case TAny => 1
    case TFalse => 0
    case TTrue => 0
    case TNot(_) => 0
    case TAnd(_) => 0
    case TBehind(_, _) => 0
    case TRep(_) => -1
    case TCall(r) =>
      if r >= |g| || r in seen then -1
      else
        RuleSize(g, r);
        assert Unseen(g, seen) == Unseen(g, seen + {r}) + {r};
        FixedMarked(g, g[r], seen + {r}, m)
    case TGrammar(rs) =>
      if |rs| == 0 then -1
      else
        RuleSize(rs, 0);
        FixedMarked(rs, rs[0], {}, GSize(rs))
    case TSeq(p1, p2) =>
      var n1 := FixedMarked(g, p1, seen, m);
      if n1 < 0 then -1 else
      var n2 := FixedMarked(g, p2, seen, m);
      if n2 < 0 then -1 else n1 + n2
    case TChoice(p1, p2) =>
      var n1 := FixedMarked(g, p1, seen, m);
      var n2 := FixedMarked(g, p2, seen, m);
      if n1 != n2 || n1 < 0 then -1 else n1
  }

  lemma {:induction false} FixedMono(g: Grammar, t: Tree, d: nat, d': nat)
    requires d <= d' && FixedLen(g, t, d) >= 0
    ensures FixedLen(g, t, d') == FixedLen(g, t, d)
    decreases d, t
  {
    match t
    case TCall(r) => FixedMono(g, g[r], d - 1, d' - 1);
    case TGrammar(rs) => FixedMono(rs, rs[0], d, d');
    case TSeq(p1, p2) => FixedMono(g, p1, d, d'); FixedMono(g, p2, d, d');
    case TChoice(p1, p2) => FixedMono(g, p1, d, d'); FixedMono(g, p2, d, d');
    case _ =>
  }

  ghost predicate NoLength(g: Grammar, q: nat, d: nat)
  {
    q < |g| && forall j :: 0 <= j < d ==> FixedLen(g, g[q], j) < 0
  }

  /** The least depth at which the rule has a length. */
  lemma {:induction false} LeastDepth(g: Grammar, r: nat, d: nat) returns (k: nat)
    requires r < |g| && FixedLen(g, g[r], d) >= 0
    ensures k <= d && FixedLen(g, g[r], k) == FixedLen(g, g[r], d) && NoLength(g, r, k)
    decreases d
  {
    if d > 0 && FixedLen(g, g[r], d - 1) >= 0 {
      k := LeastDepth(g, r, d - 1);
      FixedMono(g, g[r], d - 1, d);
    } else {
      k := d;
      forall j | 0 <= j < k ensures FixedLen(g, g[r], j) < 0 {
        if FixedLen(g, g[r], j) >= 0 { FixedMono(g, g[r], j, d - 1); }
      }
    }
  }

  /** A length found within some depth is found without meeting a marked call:
      the least depths of the rules on the way decrease. */
  lemma {:induction false} LenMarked(g: Grammar, t: Tree, seen: set<nat>, m: nat, d: nat)
    requires TSize(t) <= m && (CallFree(t) || GSize(g) <= m) && FixedLen(g, t, d) >= 0
    requires forall q :: q in seen ==> NoLength(g, q, d)
    ensures FixedMarked(g, t, seen, m) == FixedLen(g, t, d)
    decreases d, t
  {
    match t
    case TCall(r) =>
      var k := LeastDepth(g, r, d - 1);
      assert !NoLength(g, r, d);
      RuleSize(g, r);
      forall q | q in seen + {r} ensures NoLength(g, q, k) { assert q != r ==> NoLength(g, q, d); }
      LenMarked(g, g[r], seen + {r}, m, k);
    case TGrammar(rs) =>
      RuleSize(rs, 0);
      LenMarked(rs, rs[0], {}, GSize(rs), d);
    case TSeq(p1, p2) => LenMarked(g, p1, seen, m, d); LenMarked(g, p2, seen, m, d);
    case TChoice(p1, p2) => LenMarked(g, p1, seen, m, d); LenMarked(g, p2, seen, m, d);
    case _ =>
  }

  lemma {:induction false} SquareBelow(k: nat, m: nat)
    requires k < m
    ensures k + k * k <= m * m
  {
    assert m * m == (m - 1 - k) * m + (k + 1) * m;
    assert (k + 1) * m == (k + 1) * (k + 1) + (k + 1) * (m - k - 1);
  }

  lemma {:induction false} RulesFit(rs: Grammar)
    ensures |rs| <= GSize(rs) && |Unseen(rs, {})| <= |rs|
    decreases |rs|
  {
    if rs == [] {
      assert Unseen(rs, {}) == {};
    } else {
      var n := |rs| - 1;
      RulesFit(rs[1..]);
      assert Unseen(rs, {}) == Unseen(rs[1..], {}) + {n};
    }
  }

  lemma {:induction false} MarkedLen(g: Grammar, t: Tree, seen: set<nat>, m: nat, d: nat)
    requires TSize(t) <= m && (CallFree(t) || GSize(g) <= m) && FixedMarked(g, t, seen, m) >= 0
    requires |Unseen(g, seen)| + m * m <= d
    ensures FixedLen(g, t, d) == FixedMarked(g, t, seen, m)
    decreases m, |Unseen(g, seen)|, TSize(t)
  {
    match t
    case TCall(r) =>
      RuleSize(g, r);
      assert Unseen(g, seen) == Unseen(g, seen + {r}) + {r};
      MarkedLen(g, g[r], seen + {r}, m, d - 1);
    case TGrammar(rs) =>
      RuleSize(rs, 0);
      RulesFit(rs);
      SquareBelow(GSize(rs), m);
      MarkedLen(rs, rs[0], {}, GSize(rs), d);
    case TSeq(p1, p2) => MarkedLen(g, p1, seen, m, d); MarkedLen(g, p2, seen, m, d);
    case TChoice(p1, p2) => MarkedLen(g, p1, seen, m, d); MarkedLen(g, p2, seen, m, d);
    case _ =>
  }

  /** With enough depth `fixedlen` is what marking calls makes of it. */
  lemma {:induction false} FixedExact(g: Grammar, t: Tree, m: nat, d: nat)
    requires TSize(t) <= m && (CallFree(t) || GSize(g) <= m) && |g| + m * m <= d
    ensures FixedLen(g, t, d) == FixedMarked(g, t, {}, m)
  {
    RulesFit(g);
    if FixedMarked(g, t, {}, m) >= 0 { MarkedLen(g, t, {}, m, d); }
    else if FixedLen(g, t, d) >= 0 { LenMarked(g, t, {}, m, d); }
  }

  // ------------------------------------------------------------- marks on calls

  /** A call: the rule it is in, how many calls come before it there, and the rule
      it calls; the numbers behind the last rule are for the tree around. */
  type Site = (nat, nat, nat)

  function Sites(g: Grammar, m: nat): set<Site>
  {
    set o: nat, k: nat, r: nat | o <= |g| && k < m && r < |g| :: (o, k, r)
  }

  /** The calls in a tree. */
  function Calls(t: Tree): (n: nat)
    ensures n <= TSize(t)
  {
    match t
    case TRep(p) => Calls(p)
    case TSeq(p1, p2) => Calls(p1) + Calls(p2)
    case TChoice(p1, p2) => Calls(p1) + Calls(p2)
    case TNot(p) => Calls(p)
    case TAnd(p) => Calls(p)
    case TBehind(_, p) => Calls(p)
    case TCall(_) => 1
    case _ => 0
  }

  lemma {:induction false} SiteTaken(g: Grammar, m: nat, seen: set<Site>, x: Site)
    requires x in Sites(g, m) && x !in seen
    ensures |Sites(g, m) - (seen + {x})| < |Sites(g, m) - seen|
  {
    assert Sites(g, m) - seen == (Sites(g, m) - (seen + {x})) + {x};
  }

  /** `fixedlen` as it is: `callrecursive` marks the single call it follows. */
  function FixedSites(g: Grammar, t: Tree, o: nat, k: nat, seen: set<Site>, m: nat): (n: int)
    requires k + TSize(t) <= m && o <= |g| && (CallFree(t) || GSize(g) <= m)
    ensures n >= -1
    decreases m, |Sites(g, m) - seen|, TSize(t)
  {
    match t
    case TChar(_) => 1
    case TSet(_) => 1
    case TAny => 1
    case TFalse => 0
    case TTrue => 0
    case TNot(_) => 0
    case TAnd(_) => 0
    case TBehind(_, _) => 0
    case TRep(_) => -1
    case TCall(r) =>
      if r >= |g| || (o, k, r) in seen then -1
      else
        RuleSize(g, r);
        SiteTaken(g, m, seen, (o, k, r));
        FixedSites(g, g[r], r, 0, seen + {(o, k, r)}, m)
    case TGrammar(rs) =>
      if |rs| == 0 then -1
      else
        RuleSize(rs, 0);
        FixedSites(rs, rs[0], 0, 0, {}, GSize(rs))
    case TSeq(p1, p2) =>
      var n1 := FixedSites(g, p1, o, k, seen, m);
      if n1 < 0 then -1 else
      var n2 := FixedSites(g, p2, o, k + Calls(p1), seen, m);
      if n2 < 0 then -1 else n1 + n2
    case TChoice(p1, p2) =>
      var n1 := FixedSites(g, p1, o, k, seen, m);
      var n2 := FixedSites(g, p2, o, k + Calls(p1), seen, m);
      if n1 != n2 || n1 < 0 then -1 else n1
  }

  lemma {:induction false} LenSites(g: Grammar, t: Tree, o: nat, k: nat, seen: set<Site>, m: nat, d: nat)
    requires k + TSize(t) <= m && o <= |g| && (CallFree(t) || GSize(g) <= m) && FixedLen(g, t, d) >= 0
    requires forall x :: x in seen ==> NoLength(g, x.2, d)
    ensures FixedSites(g, t, o, k, seen, m) == FixedLen(g, t, d)
    decreases d, t, 1
  {
    match t
    case TCall(r) => LenSitesCall(g, r, o, k, seen, m, d);
    case TGrammar(rs) =>
      RuleSize(rs, 0);
      LenSites(rs, rs[0], 0, 0, {}, GSize(rs), d);
    case TSeq(p1, p2) => LenSitesTwo(g, p1, p2, t, o, k, seen, m, d);
    case TChoice(p1, p2) => LenSitesTwo(g, p1, p2, t, o, k, seen, m, d);
    case _ =>
  }

  lemma {:induction false} LenSitesTwo(g: Grammar, p1: Tree, p2: Tree, t: Tree, o: nat, k: nat, seen: set<Site>, m: nat,
      d: nat)
    requires t == TSeq(p1, p2) || t == TChoice(p1, p2)
    requires k + TSize(t) <= m && o <= |g| && (CallFree(t) || GSize(g) <= m)
    requires FixedLen(g, p1, d) >= 0 && FixedLen(g, p2, d) >= 0 && forall x :: x in seen ==> NoLength(g, x.2, d)
    ensures FixedSites(g, p1, o, k, seen, m) == FixedLen(g, p1, d)
    ensures FixedSites(g, p2, o, k + Calls(p1), seen, m) == FixedLen(g, p2, d)
    decreases d, t, 0
  {
    LenSites(g, p1, o, k, seen, m, d);
    LenSites(g, p2, o, k + Calls(p1), seen, m, d);
  }

  lemma {:induction false} LenSitesCall(g: Grammar, r: nat, o: nat, k: nat, seen: set<Site>, m: nat, d: nat)
    requires k + 1 <= m && o <= |g| && GSize(g) <= m && FixedLen(g, TCall(r), d) >= 0
    requires forall x :: x in seen ==> NoLength(g, x.2, d)
    ensures FixedSites(g, TCall(r), o, k, seen, m) == FixedLen(g, TCall(r), d)
    decreases d, TCall(r), 0
  {
    var j := LeastDepth(g, r, d - 1);
    var x := (o, k, r);
    assert !NoLength(g, r, d);
    assert x !in seen;
    RuleSize(g, r);
    forall y | y in seen + {x} ensures NoLength(g, y.2, j) { assert y != x ==> NoLength(g, y.2, d); }
    LenSites(g, g[r], r, 0, seen + {x}, m, j);
  }

  lemma {:induction false} SitesLen(g: Grammar, t: Tree, o: nat, k: nat, seen: set<Site>, m: nat) returns (d: nat)
    requires k + TSize(t) <= m && o <= |g| && (CallFree(t) || GSize(g) <= m) && FixedSites(g, t, o, k, seen, m) >= 0
    ensures FixedLen(g, t, d) == FixedSites(g, t, o, k, seen, m)
    decreases m, |Sites(g, m) - seen|, TSize(t)
  {
    d := 0;
    match t {
      case TCall(r) =>
        RuleSize(g, r);
        var x := (o, k, r);
        SiteTaken(g, m, seen, x);
        d := SitesLen(g, g[r], r, 0, seen + {x}, m);
        d := d + 1;
      case TGrammar(rs) =>
        RuleSize(rs, 0);
        d := SitesLen(rs, rs[0], 0, 0, {}, GSize(rs));
      case TSeq(p1, p2) => d := SitesLenTwo(g, p1, p2, t, o, k, seen, m);
      case TChoice(p1, p2) => d := SitesLenTwo(g, p1, p2, t, o, k, seen, m);
      case _ =>
    }
  }

  lemma {:induction false} SitesLenTwo(g: Grammar, p1: Tree, p2: Tree, t: Tree, o: nat, k: nat, seen: set<Site>, m: nat)
    returns (d: nat)
    requires k + TSize(t) <= m && o <= |g| && (CallFree(t) || GSize(g) <= m) &&
      (t == TSeq(p1, p2) || t == TChoice(p1, p2))
    requires FixedSites(g, p1, o, k, seen, m) >= 0 && FixedSites(g, p2, o, k + Calls(p1), seen, m) >= 0
    ensures FixedLen(g, p1, d) == FixedSites(g, p1, o, k, seen, m)
    ensures FixedLen(g, p2, d) == FixedSites(g, p2, o, k + Calls(p1), seen, m)
    decreases m, |Sites(g, m) - seen|, TSize(t), 0
  {
    var d1 := SitesLen(g, p1, o, k, seen, m);
    var d2 := SitesLen(g, p2, o, k + Calls(p1), seen, m);
    d := if d1 < d2 then d2 else d1;
    FixedMono(g, p1, d1, d);
    FixedMono(g, p2, d2, d);
  }

  /** With enough depth `fixedlen` is what marking calls makes of it, wherever in
      the grammar the tree is. */
  lemma {:induction false} SitesExact(g: Grammar, t: Tree, o: nat, k: nat, m: nat, d: nat)
    requires k + TSize(t) <= m && o <= |g| && (CallFree(t) || GSize(g) <= m) && |g| + m * m <= d
    ensures FixedLen(g, t, d) == FixedSites(g, t, o, k, {}, m)
  {
    if FixedSites(g, t, o, k, {}, m) >= 0 {
      var d1 := SitesLen(g, t, o, k, {}, m);
      LenMarked(g, t, {}, m, d1);
      FixedExact(g, t, m, d);
    } else if FixedLen(g, t, d) >= 0 {
      LenSites(g, t, o, k, {}, m, d);
    }
  }

  // ------------------------------------------------------------------------ code

  /** A depth at which every analysis of a tree of size `m` has settled. */
  function Enough(m: nat): nat
  {
    m * m + (MAXRULES + 1) * m + 2 * MAXRULES + 2
  }

  lemma {:induction false} EnoughMono(k: nat, m: nat)
    requires k <= m
    ensures Enough(k) <= Enough(m)
  {
    ProductMono(k, m, k, m);
    ProductMono(MAXRULES + 1, MAXRULES + 1, k, m);
  }

  lemma ProductMono(a: nat, b: nat, k: nat, m: nat)
    requires a <= b && k <= m
    ensures a * k <= b * m
  {
  }

  ghost predicate Same(g: Grammar, t: Tree, d: nat, d': nat)
  {
    && (forall pred :: CheckAux(g, t, pred, d) == CheckAux(g, t, pred, d'))
    && (forall fl :: GetFirst(g, t, fl, d) == GetFirst(g, t, fl, d'))
    && HeadFail(g, t, d) == HeadFail(g, t, d') && FixedLen(g, t, d) == FixedLen(g, t, d')
  }

  /** With enough depth every analysis gives the same answer whatever the depth. */
  lemma {:induction false} AnalysesSettle(g: Grammar, t: Tree, d0: nat, m: nat, d: nat, d': nat)
    requires Sure(g, t, d0, m) && Enough(m) <= d <= d'
    ensures Same(g, t, d, d')
  {
    forall pred ensures CheckAux(g, t, pred, d) == CheckAux(g, t, pred, d') {
      CheckSettles(g, t, pred, d0, m, false, MAXRULES + 1, d, d');
    }
    forall fl ensures GetFirst(g, t, fl, d) == GetFirst(g, t, fl, d') {
      FirstSettles(g, t, fl, d0, m, false, MAXRULES + 1, d, d');
    }
    HeadFailSettles(g, t, d0, m, false, MAXRULES + 1, d, d');
    LengthSettles(g, t, d0, m, d, d');
  }

  lemma {:induction false} LengthSettles(g: Grammar, t: Tree, d0: nat, m: nat, d: nat, d': nat)
    requires Sure(g, t, d0, m) && Enough(m) <= d <= d'
    ensures FixedLen(g, t, d) == FixedLen(g, t, d')
  {
    if CallFree(t) {
      NoCalls(g, t, d);
      NoCalls(g, t, d');
      FixedExact([], t, m, d);
      FixedExact([], t, m, d');
    } else {
      RulesFit(g);
      FixedExact(g, t, m, d);
      FixedExact(g, t, m, d');
    }
  }

  /** Without calls the grammar around does not matter. */
  lemma {:induction false} NoCalls(g: Grammar, t: Tree, d: nat)
    requires CallFree(t)
    ensures FixedLen(g, t, d) == FixedLen([], t, d)
    decreases t
  {
    match t
    case TSeq(p1, p2) => NoCalls(g, p1, d); NoCalls(g, p2, d);
    case TChoice(p1, p2) => NoCalls(g, p1, d); NoCalls(g, p2, d);
    case _ =>
  }

  /** The code of a tree does not depend on the depth, once it is enough. */
  lemma {:induction false} GenSettles(g: Grammar, t: Tree, opt: bool, tt: Guard, fl: Charset, d0: nat, m: nat, d: nat,
      d': nat)
    requires Sure(g, t, d0, m) && Enough(m) <= d <= d'
    ensures Gen(g, t, opt, tt, fl, d) == Gen(g, t, opt, tt, fl, d')
    decreases m, TSize(t), 1
  {
    match t
    case TChoice(p1, p2) => ChoiceSettles(g, p1, p2, t, opt, fl, d0, m, d, d');
    case TRep(p) => RepSettles(g, p, t, opt, fl, d0, m, d, d');
    case TBehind(n, p) =>
      SurePart(g, t, p, d0, m);
      GenSettles(g, p, false, NoGuard, FULL, d0, m, d, d');
    case TNot(p) =>
      SurePart(g, t, p, d0, m);
      AnalysesSettle(g, p, d0, m, d, d');
      GenSettles(g, p, false, NoGuard, FULL, d0, m, d, d');
      assert GenNot(g, p, t, d) == GenNot(g, p, t, d');
    case TAnd(p) =>
      SurePart(g, t, p, d0, m);
      AnalysesSettle(g, p, d0, m, d, d');
      GenSettles(g, p, false, tt, FULL, d0, m, d, d');
      assert GenAnd(g, p, t, tt, d) == GenAnd(g, p, t, tt, d');
    case TSeq(p1, p2) => SeqSettles(g, p1, p2, t, opt, tt, fl, d0, m, d, d');
    case TGrammar(rs) =>
      EnoughMono(GSize(rs), m);
      forall k | 0 <= k < |rs| ensures RuleSettles(rs, k, d, d') {
        SureGrammar(g, rs, k, d0, m);
        GenSettles(rs, rs[k], false, NoGuard, FULL, d0, GSize(rs), d, d');
      }
      RulesSettle(rs, 0, 4, d, d');
      assert rs[0..] == rs;
    case _ =>
  }

  ghost predicate RuleSettles(rs: Grammar, k: nat, d: nat, d': nat)
  {
    k < |rs| && Gen(rs, rs[k], false, NoGuard, FULL, d) == Gen(rs, rs[k], false, NoGuard, FULL, d')
  }

  lemma {:induction false} RulesSettle(rs: Grammar, k: nat, start: int, d: nat, d': nat)
    requires k <= |rs| && forall j :: 0 <= j < |rs| ==> RuleSettles(rs, j, d, d')
    ensures GenRules(rs, rs[k..], d) == GenRules(rs, rs[k..], d')
    ensures Positions(rs, rs[k..], start, d) == Positions(rs, rs[k..], start, d')
    decreases |rs| - k
  {
    if k < |rs| {
      assert rs[k..][1..] == rs[k + 1..] && rs[k..][0] == rs[k] && RuleSettles(rs, k, d, d');
      RulesSettle(rs, k + 1, start + |Gen(rs, rs[k], false, NoGuard, FULL, d)| + 1, d, d');
    }
  }

  lemma {:induction false} SeqSettles(g: Grammar, p1: Tree, p2: Tree, t: Tree, opt: bool, tt: Guard, fl: Charset,
      d0: nat, m: nat, d: nat, d': nat)
    requires Sure(g, t, d0, m) && Enough(m) <= d <= d' && t == TSeq(p1, p2)
    ensures GenSeq(g, p1, p2, t, opt, tt, fl, d) == GenSeq(g, p1, p2, t, opt, tt, fl, d')
    decreases m, TSize(t), 0
  {
    SurePart(g, t, p1, d0, m);
    SurePart(g, t, p2, d0, m);
    AnalysesSettle(g, p1, d0, m, d, d');
    AnalysesSettle(g, p2, d0, m, d, d');
    GenSettles(g, p1, false, tt, if NeedFollow(p1) then GetFirst(g, p2, fl, d).cs else FULL, d0, m, d, d');
    GenSettles(g, p2, opt, if FixedLen(g, p1, d) != 0 then NoGuard else tt, fl, d0, m, d, d');
  }

  lemma {:induction false} ChoiceSettles(g: Grammar, p1: Tree, p2: Tree, t: Tree, opt: bool, fl: Charset, d0: nat,
      m: nat, d: nat, d': nat)
    requires Sure(g, t, d0, m) && Enough(m) <= d <= d' && t == TChoice(p1, p2)
    ensures GenChoice(g, p1, p2, t, opt, fl, d) == GenChoice(g, p1, p2, t, opt, fl, d')
    decreases m, TSize(t), 0
  {
    SurePart(g, t, p1, d0, m);
    SurePart(g, t, p2, d0, m);
    AnalysesSettle(g, p1, d0, m, d, d');
    AnalysesSettle(g, p2, d0, m, d, d');
    var f1 := GetFirst(g, p1, FULL, d);
    GenSettles(g, p2, opt, NoGuard, fl, d0, m, d, d');
    GenSettles(g, p1, false, TestGuard(First(f1.cs, false)), fl, d0, m, d, d');
    GenSettles(g, p1, true, NoGuard, FULL, d0, m, d, d');
    GenSettles(g, p1, p2.TTrue?, TestGuard(f1), FULL, d0, m, d, d');
    DecidesSame(g, p1, p2, fl, d, d');
    ChoiceSame(g, p1, p2, t, opt, fl, d, d', f1);
  }

  lemma {:induction false} DecidesSame(g: Grammar, p1: Tree, p2: Tree, fl: Charset, d: nat, d': nat)
    requires Same(g, p1, d, d') && Same(g, p2, d, d')
    ensures TestDecides(g, p1, p2, fl, d) == TestDecides(g, p1, p2, fl, d')
    ensures RepDecides(g, p1, fl, d) == RepDecides(g, p1, fl, d')
  {
  }

  function ChoiceTestForm(f1: First, c1: seq<Inst>, c2: seq<Inst>, last: bool): seq<Inst>
  {
    var fs := First(f1.cs, false);
    var jmp := if last then [] else [IJmp(2 + |c2|), Ext];
    Test(fs, |c1| + |jmp|) + c1 + jmp + c2
  }

  function ChoiceBackForm(f1: First, c1: seq<Inst>, c2: seq<Inst>): seq<Inst>
  {
    Test(f1, 4 + |c1|) + [IChoice(4 + |c1|), Ext] + c1 + [ICommit(2 + |c2|), Ext] + c2
  }

  lemma {:induction false} ChoiceForm(g: Grammar, p1: Tree, p2: Tree, t: Tree, opt: bool, fl: Charset, d: nat)
    requires t == TChoice(p1, p2)
    ensures var f1, c2 := GetFirst(g, p1, FULL, d), Gen(g, p2, opt, NoGuard, fl, d);
      GenChoice(g, p1, p2, t, opt, fl, d) ==
      if TestDecides(g, p1, p2, fl, d) then
        ChoiceTestForm(f1, Gen(g, p1, false, TestGuard(First(f1.cs, false)), fl, d), c2, p2.TTrue?)
      else if opt && p2.TTrue? then [IPartialCommit(2), Ext] + Gen(g, p1, true, NoGuard, FULL, d)
      else ChoiceBackForm(f1, Gen(g, p1, p2.TTrue?, TestGuard(f1), FULL, d), c2)
  {
    var all := GenChoice(g, p1, p2, t, opt, fl, d);
    var f1, c2 := GetFirst(g, p1, FULL, d), Gen(g, p2, opt, NoGuard, fl, d);
    if TestDecides(g, p1, p2, fl, d) {
      var c1 := Gen(g, p1, false, TestGuard(First(f1.cs, false)), fl, d);
      assert all == ChoiceTestForm(f1, c1, c2, p2.TTrue?);
    } else if !(opt && p2.TTrue?) {
      var c1 := Gen(g, p1, p2.TTrue?, TestGuard(f1), FULL, d);
      assert all == ChoiceBackForm(f1, c1, c2);
    }
  }

  lemma {:induction false} ChoiceSame(g: Grammar, p1: Tree, p2: Tree, t: Tree, opt: bool, fl: Charset, d: nat, d': nat,
      f1: First)
    requires t == TChoice(p1, p2) && f1 == GetFirst(g, p1, FULL, d) == GetFirst(g, p1, FULL, d')
    requires TestDecides(g, p1, p2, fl, d) == TestDecides(g, p1, p2, fl, d')
    requires Gen(g, p2, opt, NoGuard, fl, d) == Gen(g, p2, opt, NoGuard, fl, d')
    requires Gen(g, p1, false, TestGuard(First(f1.cs, false)), fl, d) ==
      Gen(g, p1, false, TestGuard(First(f1.cs, false)), fl, d')
    requires Gen(g, p1, true, NoGuard, FULL, d) == Gen(g, p1, true, NoGuard, FULL, d')
    requires Gen(g, p1, p2.TTrue?, TestGuard(f1), FULL, d) == Gen(g, p1, p2.TTrue?, TestGuard(f1), FULL, d')
    ensures GenChoice(g, p1, p2, t, opt, fl, d) == GenChoice(g, p1, p2, t, opt, fl, d')
  {
    ChoiceForm(g, p1, p2, t, opt, fl, d);
    ChoiceForm(g, p1, p2, t, opt, fl, d');
  }

  lemma {:induction false} RepSettles(g: Grammar, p: Tree, t: Tree, opt: bool, fl: Charset, d0: nat, m: nat, d: nat,
      d': nat)
    requires Sure(g, t, d0, m) && Enough(m) <= d <= d' && t == TRep(p)
    ensures GenRep(g, p, t, opt, fl, d) == GenRep(g, p, t, opt, fl, d')
    decreases m, TSize(t), 0
  {
    SurePart(g, t, p, d0, m);
    AnalysesSettle(g, p, d0, m, d, d');
    var f1 := GetFirst(g, p, FULL, d);
    GenSettles(g, p, false, TestGuard(First(f1.cs, false)), FULL, d0, m, d, d');
    GenSettles(g, p, false, NoGuard, FULL, d0, m, d, d');
    DecidesSame(g, p, p, fl, d, d');
    RepSame(g, p, t, opt, fl, d, d', f1);
  }

  lemma {:induction false} RepForm(g: Grammar, p: Tree, t: Tree, opt: bool, fl: Charset, d: nat)
    requires t == TRep(p) && !IsCharset(p)
    ensures var f1 := GetFirst(g, p, FULL, d);
      GenRep(g, p, t, opt, fl, d) ==
      if RepDecides(g, p, fl, d) then J.RepTestCode(First(f1.cs, false),
        Gen(g, p, false, TestGuard(First(f1.cs, false)), FULL, d))
      else J.RepLoopCode(f1, opt, Gen(g, p, false, NoGuard, FULL, d))
  {
  }

  lemma {:induction false} RepSame(g: Grammar, p: Tree, t: Tree, opt: bool, fl: Charset, d: nat, d': nat, f1: First)
    requires t == TRep(p) && f1 == GetFirst(g, p, FULL, d) == GetFirst(g, p, FULL, d')
    requires RepDecides(g, p, fl, d) == RepDecides(g, p, fl, d')
    requires Gen(g, p, false, TestGuard(First(f1.cs, false)), FULL, d) ==
      Gen(g, p, false, TestGuard(First(f1.cs, false)), FULL, d')
    requires Gen(g, p, false, NoGuard, FULL, d) == Gen(g, p, false, NoGuard, FULL, d')
    ensures GenRep(g, p, t, opt, fl, d) == GenRep(g, p, t, opt, fl, d')
  {
    if !IsCharset(p) {
      RepForm(g, p, t, opt, fl, d);
      RepForm(g, p, t, opt, fl, d');
    }
  }

  /** The code of a complete pattern whose grammars were accepted: every depth
      that is enough for its size gives the same code. */
  lemma {:induction false} CompileSettles(t: Tree, d0: nat, d: nat, d': nat)
    requires CallFree(t) && SubsAccepted(t, d0) && Enough(TSize(t)) <= d <= d'
    ensures Compile(t, d) == Compile(t, d')
  {
    GenSettles([], t, false, NoGuard, FULL, d0, TSize(t), d, d');
  }
}
