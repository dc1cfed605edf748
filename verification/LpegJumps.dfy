/** Chains of jumps in compiled code end: `finaltarget` and with it the
    jump-threading pass terminate on every accepted pattern. */
module LpegJumps {
  import Common
  import opened LpegTree
  import opened LpegVm
  import opened LpegCode
  import opened LpegCorrect
  import opened LpegGrammar
  import opened LpegPeephole

  /** Following jumps from `k` one arrives at an instruction. */
  ghost predicate Ends(code: seq<Inst>, k: int)
  {
    exists m: nat :: EndsBy(code, k, m)
  }

  predicate EndsBy(code: seq<Inst>, k: int, m: nat)
  {
    var e := FinalTarget(code, k, m);
    0 <= e < |code| && !code[e].IJmp?
  }

  lemma EndsHere(code: seq<Inst>, k: int)
    requires 0 <= k < |code| && !code[k].IJmp?
    ensures Ends(code, k)
  {
    assert EndsBy(code, k, 0);
  }

  lemma EndsJump(code: seq<Inst>, k: int)
    requires 0 <= k < |code| && code[k].IJmp? && Ends(code, k + code[k].off)
    ensures Ends(code, k)
  {
    var m: nat :| EndsBy(code, k + code[k].off, m);
    assert EndsBy(code, k, m + 1);
  }

  /** An instruction of a piece of code ends, unless it is a jump. */
  lemma {:induction false} InstEnds(x: Ctx, a: int, c: seq<Inst>, k: nat)
    requires At(x, a, c) && k < |c| && !c[k].IOpenCall? && !c[k].IJmp?
    ensures Ends(x.code, a + k)
  {
    AtInst(x, a, c, k);
    EndsHere(x.code, a + k);
  }

  lemma {:induction false} TestEnds(x: Ctx, a: int, fs: First, skip: nat)
    requires At(x, a, Test(fs, skip)) && !fs.empty && Ends(x.code, a + TLen(fs) + skip)
    ensures Ends(x.code, a)
  {
    var c := Test(fs, skip);
    assert c[0] == TestInst(fs.cs, TestLen(fs.cs) + skip);
    AtInst(x, a, c, 0);
    if c[0].IJmp? { EndsJump(x.code, a); } else { EndsHere(x.code, a); }
  }

  // --------------------------------------------------- the start of a pattern

  /** The rules of the current grammar are in place. */
  ghost predicate Placed(x: Ctx)
  {
    |x.pos| == |x.g| && forall r :: 0 <= r < |x.g| ==> At(x, x.pos[r], RuleCode(x.g, x.g[r], x.d))
  }

  /** A tree that starts at `a`: what follows it ends, at least if it can match
      nothing; and `verifyrule` has followed it, unless it calls no rule. */
  ghost predicate Starts(x: Ctx, t: Tree, nb: bool, n: nat, b: int)
  {
    && Placed(x) && BehindsCallFree(t)
    && (|| (CallFree(t) && Ends(x.code, b))
        || (Followed(x.g, t, nb, n, x.d) && GoodCalls(x.g, t) && Checked(x.g) &&
            (VerifyRule(x.g, t, nb, n, x.d).nullable ==> Ends(x.code, b))))
  }

  /** Every call is to a rule that exists and has been checked. */
  ghost predicate GoodCalls(g: Grammar, t: Tree)
  {
    forall r: nat :: Mentions(t, r) ==> r < |g| && Used(g, r)
  }

  ghost predicate Checked(g: Grammar)
  {
    forall r :: 0 <= r < |g| ==> GoodCalls(g, g[r]) && (Used(g, r) ==> BehindsCallFree(g[r]))
  }

  lemma {:induction false} CallsOfChild(g: Grammar, t: Tree, p: Tree)
    requires GoodCalls(g, t) && Child(p, t)
    ensures GoodCalls(g, p)
  {
    forall r: nat | Mentions(p, r) ensures r < |g| && Used(g, r) { assert Mentions(t, r); }
  }

  lemma {:induction false} AccumulatorKept(g: Grammar, t: Tree, n: nat, d: nat)
    requires Followed(g, t, true, n, d)
    ensures VerifyRule(g, t, true, n, d) == Passes(true)
  {
    VerdictSound(g, t, true, n, d, [], 0, 0);
  }

  /** The chain of jumps from the start of the code of a tree ends: the calls
      it may pass are those `verifyrule` follows. */
  lemma {:induction false} StartEnds(x: Ctx, t: Tree, opt: bool, tt: Guard, fl: Charset, a: int, nb: bool, n: nat)
    requires At(x, a, Code(x, t, opt, tt, fl))
    requires Starts(x, t, nb, n, a + |Code(x, t, opt, tt, fl)|)
    ensures Ends(x.code, a)
    decreases n, t, 1
  {
    var c := Code(x, t, opt, tt, fl);
    match t
    case TTrue =>
    case TSeq(p1, p2) => SeqStart(x, t, opt, tt, fl, a, nb, n);
    case TChoice(p1, p2) => ChoiceStart(x, t, opt, tt, fl, a, nb, n);
    case TRep(p) =>
      if Followed(x.g, t, nb, n, x.d) { AccumulatorKept(x.g, p, n, x.d); }
      RepStart(x, t, opt, tt, fl, a);
    case TNot(p) =>
      if Followed(x.g, t, nb, n, x.d) { AccumulatorKept(x.g, p, n, x.d); }
      NotStart(x, t, opt, tt, fl, a);
    case TAnd(p) => AndStart(x, t, opt, tt, fl, a, nb, n);
    case TBehind(k, p) =>
      CodeBehind(x, k, p, opt, tt, fl);
      if k > 0 { InstEnds(x, a, c, 0); }
      else {
        assert c == Code(x, p, false, NoGuard, FULL);
        StartEnds(x, p, false, NoGuard, FULL, a, false, n);
      }
    case TCall(r) => CallStart(x, r, a, nb, n);
    case TGrammar(rs) =>
      CorrectCallsSpec(RawGrammar(rs, GenRules(rs, rs, x.d)), Positions(rs, rs, 4, x.d), 0);
      InstEnds(x, a, c, 0);
    case _ => InstEnds(x, a, c, 0);
  }

  lemma {:induction false} SeqStart(x: Ctx, t: Tree, opt: bool, tt: Guard, fl: Charset, a: int, nb: bool, n: nat)
    requires At(x, a, Code(x, t, opt, tt, fl)) && t.TSeq?
    requires Starts(x, t, nb, n, a + |Code(x, t, opt, tt, fl)|)
    ensures Ends(x.code, a)
    decreases n, t, 0
  {
    var TSeq(p1, p2) := t;
    var c := Code(x, t, opt, tt, fl);
    var fl1 := if NeedFollow(p1) then GetFirst(x.g, p2, fl, x.d).cs else FULL;
    var tt2 := if FixedLen(x.g, p1, x.d) != 0 then NoGuard else tt;
    CodeSeq(x, p1, p2, opt, tt, fl);
    if GoodCalls(x.g, t) { CallsOfChild(x.g, t, p1); CallsOfChild(x.g, t, p2); }
    var c1 := Code(x, p1, false, tt, fl1);
    AtConcat(x, a, c1, Code(x, p2, opt, tt2, fl));
    if (CallFree(t) && Ends(x.code, a + |c|)) || VerifyRule(x.g, p1, false, n, x.d).nullable {
      StartEnds(x, p2, opt, tt2, fl, a + |c1|, nb, n);
    }
    StartEnds(x, p1, false, tt, fl1, a, false, n);
  }

  lemma {:induction false} CallStart(x: Ctx, r: nat, a: int, nb: bool, n: nat)
    requires At(x, a, [IOpenCall(r), Ext]) && Starts(x, TCall(r), nb, n, a + 2)
    ensures Ends(x.code, a)
    decreases n, TCall(r), 0
  {
    assert Slot(x, a, [IOpenCall(r), Ext], 0);
    if x.code[a].ICall? { EndsHere(x.code, a); }
    else {
      assert Mentions(TCall(r), r);
      RuleEnds(x, r, nb, n - 1);
      EndsJump(x.code, a);
    }
  }

  lemma {:induction false} RuleEnds(x: Ctx, r: nat, nb: bool, n: nat)
    requires Placed(x) && Checked(x.g) && r < |x.g| && Used(x.g, r) && Followed(x.g, x.g[r], nb, n, x.d)
    ensures Ends(x.code, x.pos[r])
    decreases n, x.g[r], 2
  {
    var c := Code(x, x.g[r], false, NoGuard, FULL);
    AtConcat(x, x.pos[r], c, [IRet]);
    InstEnds(x, x.pos[r] + |c|, [IRet], 0);
    StartEnds(x, x.g[r], false, NoGuard, FULL, x.pos[r], nb, n);
  }

  lemma {:induction false} ChoiceStart(x: Ctx, t: Tree, opt: bool, tt: Guard, fl: Charset, a: int, nb: bool, n: nat)
    requires At(x, a, Code(x, t, opt, tt, fl)) && t.TChoice?
    requires Starts(x, t, nb, n, a + |Code(x, t, opt, tt, fl)|)
    ensures Ends(x.code, a)
    decreases n, t, 0
  {
    var TChoice(p1, p2) := t;
    CodeChoice(x, p1, p2, opt, tt, fl);
    if GoodCalls(x.g, t) { CallsOfChild(x.g, t, p2); }
    var nb2 := Followed(x.g, t, nb, n, x.d) && VerifyRule(x.g, p1, nb, n, x.d).nullable;
    var b := ChoiceParts(x, p1, p2, t, opt, fl, a);
    if b >= 0 { StartEnds(x, p2, opt, NoGuard, fl, b, nb2, n); }
  }

  /** Where the chain from the start of a choice leads, if the instruction there
      is a jump at all: to the second alternative. */
  lemma {:induction false} ChoiceParts(x: Ctx, p1: Tree, p2: Tree, t: Tree, opt: bool, fl: Charset, a: int)
    returns (b: int)
    requires t == TChoice(p1, p2) && At(x, a, GenChoice(x.g, p1, p2, t, opt, fl, x.d))
    ensures b < 0 ==> Ends(x.code, a)
    ensures b >= 0 ==>
      var c2 := Code(x, p2, opt, NoGuard, fl);
      At(x, b, c2) && b + |c2| == a + |GenChoice(x.g, p1, p2, t, opt, fl, x.d)| && (Ends(x.code, b) ==> Ends(x.code, a))
  {
    var c := GenChoice(x.g, p1, p2, t, opt, fl, x.d);
    if TestDecides(x.g, p1, p2, fl, x.d) {
      b := ChoiceTestPart(x, p1, p2, t, opt, fl, a);
    } else if opt && p2.TTrue? {
      InstEnds(x, a, c, 0);
      b := -1;
    } else {
      b := ChoiceBackPart(x, p1, p2, t, opt, fl, a);
    }
  }

  lemma {:induction false} ChoiceBackPart(x: Ctx, p1: Tree, p2: Tree, t: Tree, opt: bool, fl: Charset, a: int)
    returns (b: int)
    requires t == TChoice(p1, p2) && At(x, a, GenChoice(x.g, p1, p2, t, opt, fl, x.d))
    requires !TestDecides(x.g, p1, p2, fl, x.d) && !(opt && p2.TTrue?)
    ensures b < 0 ==> Ends(x.code, a)
    ensures b >= 0 ==>
      var c2 := Gen(x.g, p2, opt, NoGuard, fl, x.d);
      At(x, b, c2) && b + |c2| == a + |GenChoice(x.g, p1, p2, t, opt, fl, x.d)| && (Ends(x.code, b) ==> Ends(x.code, a))
  {
    var c := GenChoice(x.g, p1, p2, t, opt, fl, x.d);
    var f1 := GetFirst(x.g, p1, FULL, x.d);
    var c1 := Gen(x.g, p1, p2.TTrue?, TestGuard(f1), FULL, x.d);
    var c2 := Gen(x.g, p2, opt, NoGuard, fl, x.d);
    assert c == Test(f1, 4 + |c1|) + [IChoice(4 + |c1|), Ext] + c1 + [ICommit(2 + |c2|), Ext] + c2;
    b := TestSkips5(x, a, c, f1, [IChoice(4 + |c1|), Ext], c1, [ICommit(2 + |c2|), Ext], c2);
  }

  lemma {:induction false} ChoiceTestPart(x: Ctx, p1: Tree, p2: Tree, t: Tree, opt: bool, fl: Charset, a: int)
    returns (b: int)
    requires t == TChoice(p1, p2) && At(x, a, GenChoice(x.g, p1, p2, t, opt, fl, x.d)) &&
      TestDecides(x.g, p1, p2, fl, x.d)
    ensures var c2 := Gen(x.g, p2, opt, NoGuard, fl, x.d);
      b >= 0 && At(x, b, c2) && b + |c2| == a + |GenChoice(x.g, p1, p2, t, opt, fl, x.d)| &&
        (Ends(x.code, b) ==> Ends(x.code, a))
  {
    var c := GenChoice(x.g, p1, p2, t, opt, fl, x.d);
    var fs := First(GetFirst(x.g, p1, FULL, x.d).cs, false);
    var c1 := Gen(x.g, p1, false, TestGuard(fs), fl, x.d);
    var c2 := Gen(x.g, p2, opt, NoGuard, fl, x.d);
    var jmp := if p2.TTrue? then [] else [IJmp(2 + |c2|), Ext];
    assert c == Test(fs, |c1| + |jmp|) + c1 + jmp + c2;
    b := TestSkips(x, a, c, fs, c1, jmp, c2);
  }

  lemma {:induction false} TestSkips(x: Ctx, a: int, c: seq<Inst>, fs: First, c1: seq<Inst>, c2: seq<Inst>,
      c3: seq<Inst>) returns (b: int)
    requires !fs.empty && c == Test(fs, |c1| + |c2|) + c1 + c2 + c3 && At(x, a, c)
    ensures b >= 0 && At(x, b, c3) && b + |c3| == a + |c| && (Ends(x.code, b) ==> Ends(x.code, a))
  {
    AtConcat4(x, a, Test(fs, |c1| + |c2|), c1, c2, c3);
    b := a + TLen(fs) + |c1| + |c2|;
    if Ends(x.code, b) { TestEnds(x, a, fs, |c1| + |c2|); }
  }

  lemma {:induction false} TestSkips5(x: Ctx, a: int, c: seq<Inst>, fs: First, c1: seq<Inst>, c2: seq<Inst>,
      c3: seq<Inst>, c4: seq<Inst>) returns (b: int)
    requires c == Test(fs, |c1| + |c2| + |c3|) + c1 + c2 + c3 + c4 && At(x, a, c) && |c1| > 0 && c1[0].IChoice?
    ensures b < 0 ==> Ends(x.code, a)
    ensures b >= 0 ==> At(x, b, c4) && b + |c4| == a + |c| && (Ends(x.code, b) ==> Ends(x.code, a))
  {
    var skip := |c1| + |c2| + |c3|;
    AtConcat(x, a, Test(fs, skip) + c1 + c2 + c3, c4);
    AtConcat4(x, a, Test(fs, skip), c1, c2, c3);
    b := a + TLen(fs) + skip;
    if fs.empty { InstEnds(x, a, c1, 0); b := -1; }
    else if Ends(x.code, b) { TestEnds(x, a, fs, skip); }
  }

  /** The code of a repetition that a test decides, and of one that tries. */
  function RepTestCode(fs: First, c: seq<Inst>): seq<Inst>
  {
    Test(fs, |c| + 2) + c + [IJmp(0 - TLen(fs) - |c|), Ext]
  }

  function RepLoopCode(fs: First, opt: bool, c: seq<Inst>): seq<Inst>
  {
    Test(fs, 4 + |c|) + [if opt then IPartialCommit(2) else IChoice(4 + |c|), Ext] + c + [IPartialCommit(0 - |c|), Ext]
  }

  lemma {:induction false} RepShape(x: Ctx, p: Tree, opt: bool, tt: Guard, fl: Charset)
    ensures var f1 := GetFirst(x.g, p, FULL, x.d); var fs := First(f1.cs, false);
      Code(x, TRep(p), opt, tt, fl) ==
        if IsCharset(p) then [ISpan(ToCharset(p))] + Exts(CHARSETINSTSIZE - 1)
        else if RepDecides(x.g, p, fl, x.d) then RepTestCode(fs, Code(x, p, false, TestGuard(fs), FULL))
        else RepLoopCode(f1, opt, Code(x, p, false, NoGuard, FULL))
  {
    CodeRep(x, p, opt, tt, fl);
    var all := GenRep(x.g, p, TRep(p), opt, fl, x.d);
    var f1 := GetFirst(x.g, p, FULL, x.d);
    var fs := First(f1.cs, false);
    if !IsCharset(p) && RepDecides(x.g, p, fl, x.d) {
      assert all == RepTestCode(fs, Gen(x.g, p, false, TestGuard(fs), FULL, x.d));
    } else if !IsCharset(p) {
      assert all == RepLoopCode(f1, opt, Gen(x.g, p, false, NoGuard, FULL, x.d));
    }
  }

  lemma {:induction false} RepStart(x: Ctx, t: Tree, opt: bool, tt: Guard, fl: Charset, a: int)
    requires At(x, a, Code(x, t, opt, tt, fl)) && t.TRep?
    requires Ends(x.code, a + |Code(x, t, opt, tt, fl)|)
    ensures Ends(x.code, a)
  {
    var p := t.body;
    RepShape(x, p, opt, tt, fl);
    RepStartOf(x, Code(x, t, opt, tt, fl), a, p, opt, GetFirst(x.g, p, FULL, x.d), RepDecides(x.g, p, fl, x.d),
               Code(x, p, false, TestGuard(First(GetFirst(x.g, p, FULL, x.d).cs, false)), FULL),
                 Code(x, p, false, NoGuard, FULL));
  }

  lemma {:induction false} RepStartOf(x: Ctx, c: seq<Inst>, a: int, p: Tree, opt: bool, f1: First, decides: bool,
      c1: seq<Inst>, c2: seq<Inst>)
    requires c == if IsCharset(p) then [ISpan(ToCharset(p))] + Exts(CHARSETINSTSIZE - 1)
                  else if decides then RepTestCode(First(f1.cs, false), c1) else RepLoopCode(f1, opt, c2)
    requires At(x, a, c) && Ends(x.code, a + |c|)
    ensures Ends(x.code, a)
  {
    if IsCharset(p) { InstEnds(x, a, c, 0); }
    else if decides {
      var fs := First(f1.cs, false);
      AtConcat3(x, a, Test(fs, |c1| + 2), c1, [IJmp(0 - TLen(fs) - |c1|), Ext]);
      TestEnds(x, a, fs, |c1| + 2);
    } else {
      RepLoopStart(x, c, a, opt, f1, c2);
    }
  }

  lemma {:induction false} RepLoopStart(x: Ctx, c: seq<Inst>, a: int, opt: bool, f1: First, c2: seq<Inst>)
    requires c == RepLoopCode(f1, opt, c2) && At(x, a, c) && Ends(x.code, a + |c|)
    ensures Ends(x.code, a)
  {
    var first := [if opt then IPartialCommit(2) else IChoice(4 + |c2|), Ext];
    if f1.empty { EmptyTest(x, a, c, first, c2, [IPartialCommit(0 - |c2|), Ext], f1); }
    else { TestSkipsAll(x, a, c, f1, first, c2, [IPartialCommit(0 - |c2|), Ext]); }
  }

  /** Without a test the code starts with its first instruction. */
  lemma {:induction false} EmptyTest(x: Ctx, a: int, c: seq<Inst>, first: seq<Inst>, c1: seq<Inst>, tail: seq<Inst>,
      fs: First)
    requires fs.empty && c == Test(fs, |first| + |c1| + |tail|) + first + c1 + tail && At(x, a, c)
    requires first != [] && !first[0].IOpenCall? && !first[0].IJmp?
    ensures Ends(x.code, a)
  {
    InstEnds(x, a, c, 0);
  }

  lemma {:induction false} TestSkipsAll(x: Ctx, a: int, c: seq<Inst>, fs: First, c1: seq<Inst>, c2: seq<Inst>,
      c3: seq<Inst>)
    requires !fs.empty && c == Test(fs, |c1| + |c2| + |c3|) + c1 + c2 + c3 && At(x, a, c) && Ends(x.code, a + |c|)
    ensures Ends(x.code, a)
  {
    AtConcat4(x, a, Test(fs, |c1| + |c2| + |c3|), c1, c2, c3);
    TestEnds(x, a, fs, |c1| + |c2| + |c3|);
  }

  lemma {:induction false} NotStart(x: Ctx, t: Tree, opt: bool, tt: Guard, fl: Charset, a: int)
    requires At(x, a, Code(x, t, opt, tt, fl)) && t.TNot?
    requires Ends(x.code, a + |Code(x, t, opt, tt, fl)|)
    ensures Ends(x.code, a)
  {
    CodeNot(x, t.body, opt, tt, fl);
    NotStartOf(x, Code(x, t, opt, tt, fl), a, GetFirst(x.g, t.body, FULL, x.d), HeadFail(x.g, t.body, x.d),
               Code(x, t.body, false, NoGuard, FULL));
  }

  lemma {:induction false} NotStartOf(x: Ctx, c: seq<Inst>, a: int, f1: First, headfail: bool, c1: seq<Inst>)
    requires c == if headfail then Test(f1, 1) + [IFail]
      else Test(f1, 3 + |c1|) + [IChoice(3 + |c1|), Ext] + c1 + [IFailTwice]
    requires At(x, a, c) && Ends(x.code, a + |c|)
    ensures Ends(x.code, a)
  {
    if f1.empty { InstEnds(x, a, c, 0); }
    else if headfail {
      AtConcat(x, a, Test(f1, 1), [IFail]);
      TestEnds(x, a, f1, 1);
    } else {
      AtConcat4(x, a, Test(f1, 3 + |c1|), [IChoice(3 + |c1|), Ext], c1, [IFailTwice]);
      TestEnds(x, a, f1, 3 + |c1|);
    }
  }

  lemma {:induction false} AndStart(x: Ctx, t: Tree, opt: bool, tt: Guard, fl: Charset, a: int, nb: bool, n: nat)
    requires At(x, a, Code(x, t, opt, tt, fl)) && t.TAnd?
    requires Starts(x, t, nb, n, a + |Code(x, t, opt, tt, fl)|)
    ensures Ends(x.code, a)
    decreases n, t, 0
  {
    var p := t.body;
    CodeAnd(x, p, opt, tt, fl);
    if GoodCalls(x.g, t) { CallsOfChild(x.g, t, p); }
    var c := Code(x, t, opt, tt, fl);
    var k := FixedLen(x.g, p, x.d);
    if 0 <= k <= MAXBEHIND {
      if Followed(x.g, t, nb, n, x.d) { AccumulatorKept(x.g, p, n, x.d); }
      var c1 := Code(x, p, false, tt, FULL);
      AtConcat(x, a, c1, if k > 0 then [IBehind(k)] else []);
      if k > 0 { InstEnds(x, a + |c1|, [IBehind(k)], 0); }
      StartEnds(x, p, false, tt, FULL, a, true, n);
    } else { InstEnds(x, a, c, 0); }
  }

  // ------------------------------------------------------------- every slot

  ghost predicate EndsIn(code: seq<Inst>, a: int, n: int)
  {
    forall k :: a <= k < a + n ==> Ends(code, k)
  }

  /** Code without jumps. */
  predicate Plain(c: seq<Inst>)
  {
    forall inst :: inst in c ==> !inst.IOpenCall? && !inst.IJmp?
  }

  lemma {:induction false} PlainEnds(x: Ctx, a: int, c: seq<Inst>)
    requires At(x, a, c) && Plain(c)
    ensures EndsIn(x.code, a, |c|)
  {
    forall k | a <= k < a + |c| ensures Ends(x.code, k) {
      assert c[k - a] in c;
      InstEnds(x, a, c, k - a);
    }
  }

  /** A jump to `b` and its second slot. */
  lemma {:induction false} JumpEnds(x: Ctx, a: int, b: int)
    requires At(x, a, [IJmp(b - a), Ext]) && Ends(x.code, b)
    ensures EndsIn(x.code, a, 2)
  {
    AtInst(x, a, [IJmp(b - a), Ext], 0);
    InstEnds(x, a, [IJmp(b - a), Ext], 1);
    EndsJump(x.code, a);
  }

  lemma {:induction false} TestEndsAll(x: Ctx, a: int, fs: First, skip: nat)
    requires At(x, a, Test(fs, skip)) && Ends(x.code, a + TLen(fs) + skip)
    ensures EndsIn(x.code, a, TLen(fs))
  {
    if !fs.empty {
      TestEnds(x, a, fs, skip);
      var c := Test(fs, skip);
      forall k | a < k < a + |c| ensures Ends(x.code, k) {
        assert c[k - a] == Ext;
        InstEnds(x, a, c, k - a);
      }
    }
  }

  ghost predicate Ready(x: Ctx)
  {
    Placed(x) && forall r :: 0 <= r < |x.g| && Used(x.g, r) ==> Ends(x.code, x.pos[r])
  }

  /** What is known of a tree placed at some address. */
  ghost predicate Sound(x: Ctx, t: Tree)
  {
    Ready(x) && GoodCalls(x.g, t) && SubsAccepted(t, x.d) && Closed(x.g, t, x.d)
  }

  lemma {:induction false} SoundChild(x: Ctx, t: Tree, p: Tree)
    requires Sound(x, t) && (Child(p, t) || (t.TBehind? && p == t.body))
    ensures Sound(x, p)
  {
    forall r: nat | Mentions(p, r) ensures r < |x.g| && Used(x.g, r) { assert Mentions(t, r); }
  }

  /** From every slot of the code of a tree the chain of jumps ends, if it does
      from what follows. */
  lemma {:induction false} SlotsEnd(x: Ctx, t: Tree, opt: bool, tt: Guard, fl: Charset, c: seq<Inst>, a: int)
    requires Sound(x, t) && c == Code(x, t, opt, tt, fl) && At(x, a, c) && Ends(x.code, a + |c|)
    ensures EndsIn(x.code, a, |c|) && Ends(x.code, a)
    decreases t, 1
  {
    match t
    case TTrue =>
    case TSeq(p1, p2) => SeqSlots(x, p1, p2, t, opt, tt, fl, c, a);
    case TChoice(p1, p2) => ChoiceSlots(x, p1, p2, t, opt, tt, fl, c, a);
    case TRep(p) => RepSlots(x, p, t, opt, tt, fl, c, a);
    case TNot(p) => NotSlots(x, p, t, opt, tt, fl, c, a);
    case TAnd(p) => AndSlots(x, p, t, opt, tt, fl, c, a);
    case TBehind(k, p) =>
      SoundChild(x, t, p);
      CodeBehind(x, k, p, opt, tt, fl);
      var c1 := if k > 0 then [IBehind(k)] else [];
      var c2 := Code(x, p, false, NoGuard, FULL);
      AtConcat(x, a, c1, c2);
      SlotsEnd(x, p, false, NoGuard, FULL, c2, a + |c1|);
      PlainEnds(x, a, c1);
    case TCall(r) =>
      assert Mentions(t, r);
      assert Slot(x, a, [IOpenCall(r), Ext], 0);
      InstEnds(x, a, [IOpenCall(r), Ext], 1);
      if x.code[a].ICall? { EndsHere(x.code, a); } else { EndsJump(x.code, a); }
    case TGrammar(rs) => GrammarSlots(x, rs, t, c, a);
    case _ => PlainEnds(x, a, c);
  }

  lemma {:induction false} SeqSlots(x: Ctx, p1: Tree, p2: Tree, t: Tree, opt: bool, tt: Guard, fl: Charset,
      c: seq<Inst>, a: int)
    requires Sound(x, t) && c == Code(x, t, opt, tt, fl) && At(x, a, c) && Ends(x.code, a + |c|)
    requires t == TSeq(p1, p2)
    ensures EndsIn(x.code, a, |c|) && Ends(x.code, a)
    decreases t, 0
  {
    SoundChild(x, t, p1);
    SoundChild(x, t, p2);
    CodeSeq(x, p1, p2, opt, tt, fl);
    var fl1 := if NeedFollow(p1) then GetFirst(x.g, p2, fl, x.d).cs else FULL;
    var tt2 := if FixedLen(x.g, p1, x.d) != 0 then NoGuard else tt;
    var c1 := Code(x, p1, false, tt, fl1);
    var c2 := Code(x, p2, opt, tt2, fl);
    AtConcat(x, a, c1, c2);
    SlotsEnd(x, p2, opt, tt2, fl, c2, a + |c1|);
    SlotsEnd(x, p1, false, tt, fl1, c1, a);
  }

  lemma {:induction false} ChoiceSlots(x: Ctx, p1: Tree, p2: Tree, t: Tree, opt: bool, tt: Guard, fl: Charset,
      c: seq<Inst>, a: int)
    requires Sound(x, t) && c == Code(x, t, opt, tt, fl) && At(x, a, c) && Ends(x.code, a + |c|)
    requires t == TChoice(p1, p2)
    ensures EndsIn(x.code, a, |c|) && Ends(x.code, a)
    decreases t, 0
  {
    SoundChild(x, t, p1);
    SoundChild(x, t, p2);
    CodeChoice(x, p1, p2, opt, tt, fl);
    var f1 := GetFirst(x.g, p1, FULL, x.d);
    var c2 := Code(x, p2, opt, NoGuard, fl);
    if TestDecides(x.g, p1, p2, fl, x.d) {
      var fs := First(f1.cs, false);
      var c1 := Code(x, p1, false, TestGuard(fs), fl);
      var jmp := if p2.TTrue? then [] else [IJmp(2 + |c2|), Ext];
      assert c == Test(fs, |c1| + |jmp|) + c1 + jmp + c2 by {
        assert Test(fs, |c1|) + c1 + [] + c2 == Test(fs, |c1|) + c1 + c2;
      }
      ChoiceTestSlots(x, p1, p2, t, opt, fl, c, a, fs, c1, jmp, c2);
    } else if opt && p2.TTrue? {
      var c1 := Code(x, p1, true, NoGuard, FULL);
      OptSlots(x, p1, t, c, a, c1);
    } else {
      var c1 := Code(x, p1, p2.TTrue?, TestGuard(f1), FULL);
      assert c == Test(f1, 4 + |c1|) + [IChoice(4 + |c1|), Ext] + c1 + [ICommit(2 + |c2|), Ext] + c2;
      ChoiceBackSlots(x, p1, p2, t, opt, fl, c, a, f1, c1, c2);
    }
  }

  lemma {:induction false} JumpOver(x: Ctx, b: int, jmp: seq<Inst>, n: nat)
    requires jmp == [] || jmp == [IJmp(2 + n), Ext]
    requires At(x, b, jmp) && Ends(x.code, b + |jmp| + n) && Ends(x.code, b + |jmp|)
    ensures EndsIn(x.code, b, |jmp|) && Ends(x.code, b)
  {
    if jmp != [] { JumpEnds(x, b, b + 2 + n); }
  }

  lemma {:induction false} ChoiceTestSlots(x: Ctx, p1: Tree, p2: Tree, t: Tree, opt: bool, fl: Charset, c: seq<Inst>,
      a: int, fs: First, c1: seq<Inst>, jmp: seq<Inst>, c2: seq<Inst>)
    requires Sound(x, p1) && Sound(x, p2) && p1 < t && p2 < t
    requires c1 == Code(x, p1, false, TestGuard(fs), fl) && c2 == Code(x, p2, opt, NoGuard, fl)
    requires jmp == [] || jmp == [IJmp(2 + |c2|), Ext]
    requires c == Test(fs, |c1| + |jmp|) + c1 + jmp + c2 && At(x, a, c) && Ends(x.code, a + |c|)
    ensures EndsIn(x.code, a, |c|) && Ends(x.code, a)
    decreases t, 0, 0
  {
    var b2 := a + TLen(fs) + |c1|;
    AtConcat4(x, a, Test(fs, |c1| + |jmp|), c1, jmp, c2);
    SlotsEnd(x, p2, opt, NoGuard, fl, c2, b2 + |jmp|);
    JumpOver(x, b2, jmp, |c2|);
    TestedSlots(x, p1, t, fl, a, fs, c1, |jmp|);
  }

  lemma {:induction false} TestedSlots(x: Ctx, p: Tree, t: Tree, fl: Charset, a: int, fs: First, c: seq<Inst>,
      skip: nat)
    requires Sound(x, p) && p < t && c == Code(x, p, false, TestGuard(fs), fl)
    requires At(x, a, Test(fs, |c| + skip)) && At(x, a + TLen(fs), c)
    requires Ends(x.code, a + TLen(fs) + |c|) && Ends(x.code, a + TLen(fs) + |c| + skip)
    ensures EndsIn(x.code, a, TLen(fs) + |c|) && Ends(x.code, a)
    decreases t, 0, 0, 0
  {
    SlotsEnd(x, p, false, TestGuard(fs), fl, c, a + TLen(fs));
    TestEndsAll(x, a, fs, |c| + skip);
  }

  lemma {:induction false} ChoiceBackSlots(x: Ctx, p1: Tree, p2: Tree, t: Tree, opt: bool, fl: Charset, c: seq<Inst>,
      a: int, f1: First, c1: seq<Inst>, c2: seq<Inst>)
    requires Sound(x, p1) && Sound(x, p2) && p1 < t && p2 < t
    requires c1 == Code(x, p1, p2.TTrue?, TestGuard(f1), FULL) && c2 == Code(x, p2, opt, NoGuard, fl)
    requires c == Test(f1, 4 + |c1|) + [IChoice(4 + |c1|), Ext] + c1 + [ICommit(2 + |c2|), Ext] + c2
    requires At(x, a, c) && Ends(x.code, a + |c|)
    ensures EndsIn(x.code, a, |c|) && Ends(x.code, a)
    decreases t, 0, 0
  {
    var first := [IChoice(4 + |c1|), Ext];
    var commit := [ICommit(2 + |c2|), Ext];
    AtConcat(x, a, Test(f1, 4 + |c1|) + first + c1 + commit, c2);
    SlotsEnd(x, p2, opt, NoGuard, fl, c2, a + TLen(f1) + 4 + |c1|);
    WrapParts(x, a, f1, first, c1, commit);
    SlotsEnd(x, p1, p2.TTrue?, TestGuard(f1), FULL, c1, a + TLen(f1) + 2);
    WrapEnds(x, a, f1, first, c1, commit);
  }

  lemma {:induction false} OptSlots(x: Ctx, p1: Tree, t: Tree, c: seq<Inst>, a: int, c1: seq<Inst>)
    requires Sound(x, p1) && p1 < t && c1 == Code(x, p1, true, NoGuard, FULL)
    requires c == [IPartialCommit(2), Ext] + c1 && At(x, a, c) && Ends(x.code, a + |c|)
    ensures EndsIn(x.code, a, |c|) && Ends(x.code, a)
    decreases t, 0, 0
  {
    AtConcat(x, a, [IPartialCommit(2), Ext], c1);
    SlotsEnd(x, p1, true, NoGuard, FULL, c1, a + 2);
    PlainEnds(x, a, [IPartialCommit(2), Ext]);
  }

  lemma {:induction false} RepTestSlots(x: Ctx, p: Tree, t: Tree, c: seq<Inst>, a: int, fs: First, c1: seq<Inst>)
    requires Sound(x, p) && p < t && !fs.empty && c1 == Code(x, p, false, TestGuard(fs), FULL)
    requires c == RepTestCode(fs, c1) && At(x, a, c) && Ends(x.code, a + |c|)
    ensures EndsIn(x.code, a, |c|) && Ends(x.code, a)
    decreases t, 0, 0
  {
    AtConcat3(x, a, Test(fs, |c1| + 2), c1, [IJmp(0 - TLen(fs) - |c1|), Ext]);
    TestEndsAll(x, a, fs, |c1| + 2);
    JumpEnds(x, a + TLen(fs) + |c1|, a);
    SlotsEnd(x, p, false, TestGuard(fs), FULL, c1, a + TLen(fs));
  }

  lemma {:induction false} SpanPlain(inst: Inst)
    requires inst.ISpan?
    ensures Plain([inst] + Exts(CHARSETINSTSIZE - 1))
  {
  }

  lemma {:induction false} RepSlots(x: Ctx, p: Tree, t: Tree, opt: bool, tt: Guard, fl: Charset, c: seq<Inst>, a: int)
    requires Sound(x, t) && c == Code(x, t, opt, tt, fl) && At(x, a, c) && Ends(x.code, a + |c|)
    requires t == TRep(p)
    ensures EndsIn(x.code, a, |c|) && Ends(x.code, a)
    decreases t, 0
  {
    SoundChild(x, t, p);
    RepShape(x, p, opt, tt, fl);
    var f1 := GetFirst(x.g, p, FULL, x.d);
    if IsCharset(p) {
      SpanPlain(ISpan(ToCharset(p)));
      PlainEnds(x, a, c);
    } else if RepDecides(x.g, p, fl, x.d) {
      var fs := First(f1.cs, false);
      var c1 := Code(x, p, false, TestGuard(fs), FULL);
      RepTestSlots(x, p, t, c, a, fs, c1);
    } else {
      RepLoopSlots(x, p, t, opt, c, a, f1, Code(x, p, false, NoGuard, FULL));
    }
  }

  lemma {:induction false} RepLoopSlots(x: Ctx, p: Tree, t: Tree, opt: bool, c: seq<Inst>, a: int, f1: First,
      c1: seq<Inst>)
    requires Sound(x, p) && p < t && c1 == Code(x, p, false, NoGuard, FULL)
    requires c == RepLoopCode(f1, opt, c1)
    requires At(x, a, c) && Ends(x.code, a + |c|)
    ensures EndsIn(x.code, a, |c|) && Ends(x.code, a)
    decreases t, 0, 0
  {
    var first := [if opt then IPartialCommit(2) else IChoice(4 + |c1|), Ext];
    var again := [IPartialCommit(0 - |c1|), Ext];
    WrapParts(x, a, f1, first, c1, again);
    SlotsEnd(x, p, false, NoGuard, FULL, c1, a + TLen(f1) + 2);
    WrapEnds(x, a, f1, first, c1, again);
  }

  lemma {:induction false} NotSlots(x: Ctx, p: Tree, t: Tree, opt: bool, tt: Guard, fl: Charset, c: seq<Inst>, a: int)
    requires Sound(x, t) && c == Code(x, t, opt, tt, fl) && At(x, a, c) && Ends(x.code, a + |c|)
    requires t == TNot(p)
    ensures EndsIn(x.code, a, |c|) && Ends(x.code, a)
    decreases t, 0
  {
    SoundChild(x, t, p);
    CodeNot(x, p, opt, tt, fl);
    var f1 := GetFirst(x.g, p, FULL, x.d);
    if HeadFail(x.g, p, x.d) {
      AtConcat(x, a, Test(f1, 1), [IFail]);
      PlainEnds(x, a + TLen(f1), [IFail]);
      TestEndsAll(x, a, f1, 1);
    } else {
      NotBackSlots(x, p, t, c, a, f1, Code(x, p, false, NoGuard, FULL));
    }
  }

  lemma {:induction false} NotBackSlots(x: Ctx, p: Tree, t: Tree, c: seq<Inst>, a: int, f1: First, c1: seq<Inst>)
    requires Sound(x, p) && p < t && c1 == Code(x, p, false, NoGuard, FULL)
    requires c == Test(f1, 3 + |c1|) + [IChoice(3 + |c1|), Ext] + c1 + [IFailTwice] && At(x, a, c) &&
      Ends(x.code, a + |c|)
    ensures EndsIn(x.code, a, |c|) && Ends(x.code, a)
    decreases t, 0, 0
  {
    WrapParts(x, a, f1, [IChoice(3 + |c1|), Ext], c1, [IFailTwice]);
    SlotsEnd(x, p, false, NoGuard, FULL, c1, a + TLen(f1) + 2);
    WrapEnds(x, a, f1, [IChoice(3 + |c1|), Ext], c1, [IFailTwice]);
  }

  /** test; first; code; tail, where only the code may hold jumps. */
  lemma {:induction false} WrapParts(x: Ctx, a: int, fs: First, first: seq<Inst>, c: seq<Inst>, tail: seq<Inst>)
    requires At(x, a, Test(fs, |first| + |c| + |tail|) + first + c + tail) && Plain(first) && Plain(tail) && tail != []
    ensures At(x, a + TLen(fs) + |first|, c) && Ends(x.code, a + TLen(fs) + |first| + |c|)
  {
    AtConcat4(x, a, Test(fs, |first| + |c| + |tail|), first, c, tail);
    PlainEnds(x, a + TLen(fs) + |first| + |c|, tail);
  }

  lemma {:induction false} WrapEnds(x: Ctx, a: int, fs: First, first: seq<Inst>, c: seq<Inst>, tail: seq<Inst>)
    requires At(x, a, Test(fs, |first| + |c| + |tail|) + first + c + tail) && Plain(first) && Plain(tail) && first != []
    requires EndsIn(x.code, a + TLen(fs) + |first|, |c|) && Ends(x.code, a + TLen(fs) + |first| + |c| + |tail|)
    ensures EndsIn(x.code, a, TLen(fs) + |first| + |c| + |tail|) && Ends(x.code, a)
  {
    AtConcat4(x, a, Test(fs, |first| + |c| + |tail|), first, c, tail);
    PlainEnds(x, a + TLen(fs) + |first| + |c|, tail);
    PlainEnds(x, a + TLen(fs), first);
    TestEndsAll(x, a, fs, |first| + |c| + |tail|);
  }

  lemma {:induction false} AndSlots(x: Ctx, p: Tree, t: Tree, opt: bool, tt: Guard, fl: Charset, c: seq<Inst>, a: int)
    requires Sound(x, t) && c == Code(x, t, opt, tt, fl) && At(x, a, c) && Ends(x.code, a + |c|)
    requires t == TAnd(p)
    ensures EndsIn(x.code, a, |c|) && Ends(x.code, a)
    decreases t, 0
  {
    SoundChild(x, t, p);
    CodeAnd(x, p, opt, tt, fl);
    var n := FixedLen(x.g, p, x.d);
    var c1 := Code(x, p, false, tt, FULL);
    if 0 <= n <= MAXBEHIND {
      var back := if n > 0 then [IBehind(n)] else [];
      AtConcat(x, a, c1, back);
      PlainEnds(x, a + |c1|, back);
      SlotsEnd(x, p, false, tt, FULL, c1, a);
    } else {
      var first := [IChoice(4 + |c1|), Ext];
      var back := [IBackCommit(3), Ext, IFail];
      AtConcat3(x, a, first, c1, back);
      PlainEnds(x, a + 2 + |c1|, back);
      SlotsEnd(x, p, false, tt, FULL, c1, a + 2);
      PlainEnds(x, a, first);
    }
  }

  lemma {:induction false} AcceptedChecked(rs: Grammar, d: nat)
    requires Accepted(rs, d)
    ensures Checked(rs)
  {
    forall r | 0 <= r < |rs| ensures GoodCalls(rs, rs[r]) && (Used(rs, r) ==> BehindsCallFree(rs[r])) {
      UsedRule(rs, r);
    }
  }

  lemma {:induction false} GrammarReady(x: Ctx)
    requires Placed(x) && Accepted(x.g, x.d)
    ensures Ready(x)
  {
    AcceptedChecked(x.g, x.d);
    forall r | 0 <= r < |x.g| && Used(x.g, r) ensures Ends(x.code, x.pos[r]) {
      assert RuleAccepted(x.g, x.g[r], x.d);
      RuleEnds(x, r, false, MAXRULES);
    }
  }

  lemma {:induction false} GrammarSlots(x: Ctx, rs: Grammar, t: Tree, c: seq<Inst>, a: int)
    requires Sound(x, t) && c == Code(x, t, false, NoGuard, FULL) && At(x, a, c) && Ends(x.code, a + |c|)
    requires t == TGrammar(rs)
    ensures EndsIn(x.code, a, |c|) && Ends(x.code, a)
    decreases t, 0
  {
    var bodies := GenRules(rs, rs, x.d);
    var raw := RawGrammar(rs, bodies);
    var pos := Positions(rs, rs, 4, x.d);
    CorrectCallsSpec(raw, pos, 0);
    AtInst(x, a, c, 2);
    EndsJump(x.code, a + 2);
    InstEnds(x, a, c, 0);
    InstEnds(x, a, c, 1);
    InstEnds(x, a, c, 3);
    var x' := GrammarPlaced(x, rs, raw, pos, a, bodies);
    GrammarReady(x');
    AcceptedChecked(rs, x.d);
    RulesSlots(x', rs, a + 4, t);
  }

  lemma {:induction false} GrammarPlaced(x: Ctx, rs: Grammar, raw: seq<Inst>, pos: seq<int>, a: int, bodies: seq<Inst>)
    returns (x': Ctx)
    requires |rs| > 0 && (forall p :: p in rs ==> Closed(rs, p, x.d))
    requires bodies == GenRules(rs, rs, x.d) && raw == RawGrammar(rs, bodies) && pos == Positions(rs, rs, 4, x.d)
    requires At(x, a, CorrectCalls(raw, pos, 0))
    ensures x'.code == x.code && x'.g == rs && x'.d == x.d && Placed(x') && At(x', a + 4, bodies)
  {
    var y := x.(good := iset{});
    AtSame(x, y, a, CorrectCalls(raw, pos, 0));
    GrammarEnv(y, rs, raw, pos, a);
    x' := y.(g := rs, pos := Shift(a, pos));
    BodiesPlaced(x, rs, raw, pos, a, bodies, x');
  }

  lemma {:induction false} BodiesPlaced(x: Ctx, rs: Grammar, raw: seq<Inst>, pos: seq<int>, a: int, bodies: seq<Inst>,
      x': Ctx)
    requires |rs| > 0 && (forall p :: p in rs ==> Closed(rs, p, x.d))
    requires bodies == GenRules(rs, rs, x.d) && raw == RawGrammar(rs, bodies) && pos == Positions(rs, rs, 4, x.d)
    requires At(x, a, CorrectCalls(raw, pos, 0))
    requires x'.code == x.code && x'.pos == Shift(a, pos)
    ensures At(x', a + 4, bodies)
  {
    RawCalls(rs, x.d);
    CorrectCallsSpec(raw, pos, 0);
    assert |raw| == 4 + |bodies| && raw[4..4 + |bodies|] == bodies;
    ClosedInPlace(x, raw, CorrectCalls(raw, pos, 0), pos, a, bodies, x');
  }

  lemma {:induction false} ClosedInPlace(x: Ctx, raw: seq<Inst>, c: seq<Inst>, pos: seq<int>, a: int, bodies: seq<Inst>,
      x': Ctx)
    requires Closes(raw, c, pos, 0) && CallsBelow(raw, |pos|) && CallsBelow(c, 0) && At(x, a, c) && Sub(raw, 4, bodies)
    requires x'.code == x.code && x'.pos == Shift(a, pos)
    ensures At(x', a + 4, bodies)
  {
    AtExactly(x, a, c);
    RuleInPlace(x', raw, c, pos, a, 4, bodies);
  }

  lemma {:induction false} AtSame(x: Ctx, y: Ctx, a: int, c: seq<Inst>)
    requires At(x, a, c) && y.code == x.code && y.pos == x.pos
    ensures At(y, a, c)
  {
    forall k | 0 <= k < |c| ensures Slot(y, a, c, k) { assert Slot(x, a, c, k); }
  }

  lemma {:induction false} RulesSlots(x: Ctx, rest: Grammar, b: int, t: Tree)
    requires Ready(x) && t == TGrammar(x.g) && Closed([], t, x.d) && SubsAccepted(t, x.d) && Checked(x.g)
    requires (forall p :: p in rest ==> p in x.g) && At(x, b, GenRules(x.g, rest, x.d))
    ensures EndsIn(x.code, b, |GenRules(x.g, rest, x.d)|)
    decreases t, 0, |rest|
  {
    if rest != [] {
      var c := Code(x, rest[0], false, NoGuard, FULL);
      var tail := GenRules(x.g, rest[1..], x.d);
      AtConcat3(x, b, c, [IRet], tail);
      PlainEnds(x, b + |c|, [IRet]);
      assert rest[0] in rest;
      var k :| 0 <= k < |x.g| && x.g[k] == rest[0];
      SlotsEnd(x, rest[0], false, NoGuard, FULL, c, b);
      RulesSlots(x, rest[1..], b + |c| + 1, t);
    }
  }

  // ---------------------------------------------------------- the whole code

  /** In the code of an accepted pattern every chain of jumps ends. */
  lemma {:induction false} CompiledJumpsEnd(t: Tree, d: nat)
    requires Closed([], t, d) && CallFree(t) && SubsAccepted(t, d)
    ensures forall k :: 0 <= k < |Compile(t, d)| ==> Ends(Compile(t, d), k)
  {
    var code := Compile(t, d);
    var x := Ctx(code, [], [], [], d, iset{});
    var c := Code(x, t, false, NoGuard, FULL);
    GenCalls([], t, false, NoGuard, FULL, d);
    forall k | 0 <= k < |c| ensures Slot(x, 0, c, k) { assert c[k] in c; }
    NoMentions(t);
    EndsHere(code, |c|);
    SlotsEnd(x, t, false, NoGuard, FULL, c, 0);
  }

  lemma {:induction false} NoMentions(t: Tree)
    requires CallFree(t)
    ensures forall r: nat :: !Mentions(t, r)
    decreases t
  {
    match t
    case TSeq(p1, p2) => NoMentions(p1); NoMentions(p2);
    case TChoice(p1, p2) => NoMentions(p1); NoMentions(p2);
    case TRep(p) => NoMentions(p);
    case TNot(p) => NoMentions(p);
    case TAnd(p) => NoMentions(p);
    case TBehind(_, p) => NoMentions(p);
    case _ =>
  }

  // --------------------------------------------- how long a chain can be

  lemma {:induction false} TargetStays(code: seq<Inst>, k: int, m: nat, n: nat)
    requires EndsBy(code, k, m) && m <= n
    ensures FinalTarget(code, k, n) == FinalTarget(code, k, m)
    decreases m
  {
    if 0 <= k < |code| && code[k].IJmp? { TargetStays(code, k + code[k].off, m - 1, n - 1); }
  }

  /** One more jump. */
  lemma {:induction false} TargetNext(code: seq<Inst>, k: int, m: nat)
    ensures FinalTarget(code, k, m + 1) == FinalTarget(code, FinalTarget(code, k, m), 1)
    decreases m
  {
    if m > 0 && 0 <= k < |code| && code[k].IJmp? { TargetNext(code, k + code[k].off, m - 1); }
  }

  ghost predicate Before(code: seq<Inst>, j: int, k: int)
  {
    0 <= j < |code| && code[j].IJmp? && Leads(code, j + code[j].off, k)
  }

  /** A chain that ends does not come back. */
  lemma {:induction false} NoReturn(code: seq<Inst>, k: int, m: nat)
    requires EndsBy(code, k, m)
    ensures !Before(code, k, k)
    decreases m
  {
    if Before(code, k, k) {
      var n: nat :| FinalTarget(code, k + code[k].off, n) == k;
      if m <= n {
        TargetStays(code, k, m, n + 1);
      } else {
        Around(code, k, n + 1, m);
        NoReturn(code, k, m - n - 1);
      }
    }
  }

  lemma {:induction false} Around(code: seq<Inst>, k: int, n: nat, m: nat)
    requires n <= m
    ensures FinalTarget(code, k, m) == FinalTarget(code, FinalTarget(code, k, n), m - n)
    decreases n
  {
    if n > 0 {
      if 0 <= k < |code| && code[k].IJmp? { Around(code, k + code[k].off, n - 1, m - 1); }
    }
  }

  /** Chains that end do so within as many jumps as there are slots. */
  lemma {:induction false} ShortChain(code: seq<Inst>, k: int, m: nat, seen: set<int>)
    requires EndsBy(code, k, m) && forall j :: j in seen ==> Before(code, j, k)
    ensures |seen| <= |code| && EndsBy(code, k, |code| - |seen|)
    decreases m
  {
    Common.SubsetSize(seen, Range(|code|));
    if 0 <= k < |code| && code[k].IJmp? {
      NoReturn(code, k, m);
      var k' := k + code[k].off;
      forall j | j in seen + {k} ensures Before(code, j, k') {
        if j in seen {
          var n: nat :| FinalTarget(code, j + code[j].off, n) == k;
          TargetNext(code, j + code[j].off, n);
        } else {
          assert FinalTarget(code, k', 0) == k';
        }
      }
      ShortChain(code, k', m - 1, seen + {k});
    }
  }

  function Range(n: nat): (r: set<int>)
    ensures |r| == n && forall j :: j in r <==> 0 <= j < n
  {
    if n == 0 then {} else Range(n - 1) + {n - 1}
  }

  /** `finaltarget`, as the loop it is. */
  method FindFinalTarget(code: seq<Inst>, i: int) returns (k: int)
    requires Ends(code, i)
    ensures k == FinalTarget(code, i, |code|) && 0 <= k < |code| && !code[k].IJmp?
  {
    k := i;
    ghost var m: nat :| EndsBy(code, i, m);
    ShortChain(code, i, m, {});
    ghost var n: nat := |code|;
    while code[k].IJmp?
      invariant EndsBy(code, k, n) && FinalTarget(code, k, n) == FinalTarget(code, i, |code|)
      invariant 0 <= k < |code|
      decreases n
    {
      k := k + code[k].off;
      n := n - 1;
    }
  }
}
