/** Correctness of the compiled code: whatever the machine does from the start
    of the code of a tree is what its continuation does after the answer the
    parsing expression gives. */
module LpegCorrect {
  import opened LpegTree
  import opened LpegVm
  import opened LpegCode

  /** Everything that stays fixed while code runs: the whole program, the
      subject, the current grammar with the address of each rule, the call
      depth used by the analyses, and a set of machine states that contains a
      state exactly when it contains its successor. */
  datatype Ctx = Ctx(code: seq<Inst>, s: seq<Byte>, g: Grammar, pos: seq<int>, d: nat, good: iset<State>)

  ghost predicate Steady(x: Ctx)
  {
    forall st {:trigger Step(x.code, x.s, st)} :: st in x.good <==> Step(x.code, x.s, st) in x.good
  }

  /** Slot `k` of the program holds `inst`, or the closed form of an open call. */
  ghost predicate Holds(x: Ctx, k: int, inst: Inst)
  {
    0 <= k < |x.code| &&
    if inst.IOpenCall? then
      inst.rule < |x.pos| &&
      (|| x.code[k] == ICall(x.pos[inst.rule] - k)
       || (x.code[k] == IJmp(x.pos[inst.rule] - k) && LeadsToRet(x.code, k + 2)))
    else x.code[k] == inst
  }

  /** The program contains `c` at address `a`. */
  ghost predicate At(x: Ctx, a: int, c: seq<Inst>)
  {
    0 <= a && a + |c| <= |x.code| && forall k :: 0 <= k < |c| ==> Slot(x, a, c, k)
  }

  ghost predicate Slot(x: Ctx, a: int, c: seq<Inst>, k: int)
    requires 0 <= k < |c|
  {
    Holds(x, a + k, c[k])
  }

  lemma {:induction false} AtConcat(x: Ctx, a: int, c1: seq<Inst>, c2: seq<Inst>)
    requires At(x, a, c1 + c2)
    ensures At(x, a, c1) && At(x, a + |c1|, c2)
  {
    forall k | 0 <= k < |c1| ensures Slot(x, a, c1, k) { assert Slot(x, a, c1 + c2, k); }
    var b := a + |c1|;
    forall k | 0 <= k < |c2| ensures Slot(x, b, c2, k) { assert Slot(x, a, c1 + c2, |c1| + k); }
  }

  lemma {:induction false} AtConcat3(x: Ctx, a: int, c1: seq<Inst>, c2: seq<Inst>, c3: seq<Inst>)
    requires At(x, a, c1 + c2 + c3)
    ensures At(x, a, c1) && At(x, a + |c1|, c2) && At(x, a + |c1| + |c2|, c3)
  {
    AtConcat(x, a, c1 + c2, c3);
    AtConcat(x, a, c1, c2);
  }

  lemma {:induction false} AtConcat4(x: Ctx, a: int, c1: seq<Inst>, c2: seq<Inst>, c3: seq<Inst>, c4: seq<Inst>)
    requires At(x, a, c1 + c2 + c3 + c4)
    ensures At(x, a, c1) && At(x, a + |c1|, c2) && At(x, a + |c1| + |c2|, c3) && At(x, a + |c1| + |c2| + |c3|, c4)
  {
    AtConcat(x, a, c1 + c2 + c3, c4);
    AtConcat3(x, a, c1, c2, c3);
  }

  ghost predicate HasInst(x: Ctx, k: int, inst: Inst)
  {
    0 <= k < |x.code| && x.code[k] == inst
  }

  lemma {:induction false} AtInst(x: Ctx, a: int, c: seq<Inst>, k: nat)
    requires At(x, a, c) && k < |c| && !c[k].IOpenCall?
    ensures HasInst(x, a + k, c[k])
  {
    assert Slot(x, a, c, k);
  }

  function RuleCode(g: Grammar, t: Tree, d: nat): seq<Inst>
  {
    Gen(g, t, false, NoGuard, FULL, d) + [IRet]
  }

  /** Every rule of the current grammar is in the program at its address. */
  ghost predicate Env(x: Ctx)
  {
    Steady(x) && |x.pos| == |x.g| &&
    forall r :: 0 <= r < |x.g| ==> Closed(x.g, x.g[r], x.d) && At(x, x.pos[r], RuleCode(x.g, x.g[r], x.d))
  }

  /** Look-behind nodes carry the fixed length of their pattern (`lp_behind`);
      calls name existing rules (`fixonecall`). */
  predicate Closed(g: Grammar, t: Tree, d: nat)
    decreases t, d
  {
    match t
    case TRep(p) => Closed(g, p, d)
    case TSeq(p1, p2) => Closed(g, p1, d) && Closed(g, p2, d)
    case TChoice(p1, p2) => Closed(g, p1, d) && Closed(g, p2, d)
    case TNot(p) => Closed(g, p, d)
    case TAnd(p) => Closed(g, p, d)
    case TBehind(n, p) => Closed(g, p, d) && FixedLen(g, p, d) == n
    case TCall(r) => r < |g|
    case TGrammar(rs) => |rs| > 0 && forall p :: p in rs ==> Closed(rs, p, d)
    case _ => true
  }

  ghost predicate GuardHolds(tt: Guard, s: seq<Byte>, i: nat)
  {
    match tt
    case NoGuard => true
    case GChar(c) => i < |s| && s[i] == c
    case GSet(cs) => i < |s| && s[i] in cs
  }

  // -------------------------------------------------- shapes of generated code

  /** The code of a tree in the current grammar. */
  function Code(x: Ctx, t: Tree, opt: bool, tt: Guard, fl: Charset): seq<Inst>
  {
    Gen(x.g, t, opt, tt, fl, x.d)
  }

  lemma {:induction false} CodeBehind(x: Ctx, n: nat, p: Tree, opt: bool, tt: Guard, fl: Charset)
    ensures Code(x, TBehind(n, p), opt, tt, fl) ==
      (if n > 0 then [IBehind(n)] else []) + Code(x, p, false, NoGuard, FULL)
  {
    assert Gen(x.g, TBehind(n, p), opt, tt, fl, x.d) == GenBehind(x.g, n, p, TBehind(n, p), x.d);
  }

  lemma {:induction false} CodeSeq(x: Ctx, p1: Tree, p2: Tree, opt: bool, tt: Guard, fl: Charset)
    ensures Code(x, TSeq(p1, p2), opt, tt, fl) ==
      Code(x, p1, false, tt, if NeedFollow(p1) then GetFirst(x.g, p2, fl, x.d).cs else FULL) +
      Code(x, p2, opt, if FixedLen(x.g, p1, x.d) != 0 then NoGuard else tt, fl)
  {
    assert Gen(x.g, TSeq(p1, p2), opt, tt, fl, x.d) == GenSeq(x.g, p1, p2, TSeq(p1, p2), opt, tt, fl, x.d);
  }

  lemma {:induction false} CodeNot(x: Ctx, p: Tree, opt: bool, tt: Guard, fl: Charset)
    ensures var fs := GetFirst(x.g, p, FULL, x.d);
      var c := Code(x, p, false, NoGuard, FULL);
      Code(x, TNot(p), opt, tt, fl) ==
        if HeadFail(x.g, p, x.d) then Test(fs, 1) + [IFail]
        else Test(fs, 3 + |c|) + [IChoice(3 + |c|), Ext] + c + [IFailTwice]
  {
    assert Gen(x.g, TNot(p), opt, tt, fl, x.d) == GenNot(x.g, p, TNot(p), x.d);
  }

  lemma {:induction false} CodeAnd(x: Ctx, p: Tree, opt: bool, tt: Guard, fl: Charset)
    ensures var n := FixedLen(x.g, p, x.d);
      var c := Code(x, p, false, tt, FULL);
      Code(x, TAnd(p), opt, tt, fl) ==
        if 0 <= n <= MAXBEHIND then c + (if n > 0 then [IBehind(n)] else [])
        else [IChoice(4 + |c|), Ext] + c + [IBackCommit(3), Ext, IFail]
  {
    assert Gen(x.g, TAnd(p), opt, tt, fl, x.d) == GenAnd(x.g, p, TAnd(p), tt, x.d);
  }

  lemma {:induction false} CodeChoice(x: Ctx, p1: Tree, p2: Tree, opt: bool, tt: Guard, fl: Charset)
    ensures Code(x, TChoice(p1, p2), opt, tt, fl) == GenChoice(x.g, p1, p2, TChoice(p1, p2), opt, fl, x.d)
  {
    assert Gen(x.g, TChoice(p1, p2), opt, tt, fl, x.d) == GenChoice(x.g, p1, p2, TChoice(p1, p2), opt, fl, x.d);
  }

  lemma {:induction false} CodeRep(x: Ctx, p: Tree, opt: bool, tt: Guard, fl: Charset)
    ensures Code(x, TRep(p), opt, tt, fl) == GenRep(x.g, p, TRep(p), opt, fl, x.d)
  {
    assert Gen(x.g, TRep(p), opt, tt, fl, x.d) == GenRep(x.g, p, TRep(p), opt, fl, x.d);
  }

  /** What is required of the continuation of code that ends at `b`, for the
      machine to answer `r` after a match that ends at position `j`. */
  ghost predicate Cont(x: Ctx, b: int, j: nat, stk: Stack, opt: bool, fl: Charset)
  {
    if opt then
      && stk.Back?
      && Run(stk.p, j, stk.rest) in x.good
      && AnyTop(x, b, j, stk.p, stk.rest)
    else
      && Run(b, j, stk) in x.good
      && (j < |x.s| && x.s[j] !in fl ==> FailTo(stk) in x.good)
  }

  /** The state is good whatever position its choice entry has saved. */
  ghost predicate AnyTop(x: Ctx, b: int, j: nat, p: int, rest: Stack)
  {
    forall q: nat :: Run(b, j, Back(p, q, rest)) in x.good
  }

  lemma {:induction false} AnyTopAt(x: Ctx, b: int, j: nat, p: int, q: nat, rest: Stack)
    requires AnyTop(x, b, j, p, rest)
    ensures Run(b, j, Back(p, q, rest)) in x.good
  {
  }

  ghost predicate After(x: Ctx, res: Res, b: int, stk: Stack, opt: bool, fl: Charset)
  {
    match res
    case Out => false
    case Fail => FailTo(stk) in x.good
    case Ok(j) => Cont(x, b, j, stk, opt, fl)
  }

  lemma {:induction false} Go(x: Ctx, p: int, i: nat, stk: Stack)
    requires Steady(x) && Step(x.code, x.s, Run(p, i, stk)) in x.good
    ensures Run(p, i, stk) in x.good
  {
    assert Step(x.code, x.s, Run(p, i, stk)) in x.good;
  }

  /** The test lets the pattern be tried. */
  ghost predicate Takes(x: Ctx, fs: First, i: nat)
  {
    fs.empty || (i < |x.s| && x.s[i] in fs.cs)
  }

  /** A test falls through exactly when there is a next character in the set. */
  lemma {:induction false} GoTest(x: Ctx, a: int, fs: First, skip: nat, i: nat, stk: Stack)
    requires Steady(x) && i <= |x.s| && At(x, a, Test(fs, skip))
    requires Takes(x, fs, i) ==> Run(a + TLen(fs), i, stk) in x.good
    requires !Takes(x, fs, i) ==> Run(a + TLen(fs) + skip, i, stk) in x.good
    ensures Run(a, i, stk) in x.good
  {
    if !fs.empty {
      AtInst(x, a, Test(fs, skip), 0);
      Go(x, a, i, stk);
    }
  }

  lemma {:induction false} GuardTest(x: Ctx, fs: First, i: nat)
    requires Takes(x, fs, i)
    ensures GuardHolds(TestGuard(fs), x.s, i)
  {
  }

  lemma {:induction false} SimCharset(x: Ctx, cs: Charset, tt: Guard, a: int, i: nat, stk: Stack)
    requires Steady(x) && i <= |x.s| && GuardHolds(tt, x.s, i)
    requires At(x, a, CodeCharset(cs, tt))
    requires if i < |x.s| && x.s[i] in cs then Run(a + |CodeCharset(cs, tt)|, i + 1, stk) in x.good
             else FailTo(stk) in x.good
    ensures Run(a, i, stk) in x.good
  {
    AtInst(x, a, CodeCharset(cs, tt), 0);
    Go(x, a, i, stk);
  }

  // ------------------------------------------------- jumps and closed calls

  /** A jump and the place where its chain of jumps ends behave alike. */
  lemma {:induction false} JumpChain(x: Ctx, k: int, n: nat, j: nat, stk: Stack)
    requires Steady(x) && j <= |x.s|
    ensures Run(k, j, stk) in x.good <==> Run(FinalTarget(x.code, k, n), j, stk) in x.good
    decreases n
  {
    if n > 0 && 0 <= k < |x.code| && x.code[k].IJmp? {
      assert Step(x.code, x.s, Run(k, j, stk)) == Run(k + x.code[k].off, j, stk);
      JumpChain(x, k + x.code[k].off, n - 1, j, stk);
    }
  }

  ghost predicate SameButCalls(c: seq<Inst>, c': seq<Inst>)
  {
    |c| == |c'| && forall k :: 0 <= k < |c| && !c[k].IOpenCall? ==> c'[k] == c[k]
  }

  ghost predicate Embeds(c: seq<Inst>, code: seq<Inst>, a: int)
  {
    0 <= a && a + |c| <= |code| && forall k :: 0 <= k < |c| && !c[k].IOpenCall? ==> code[a + k] == c[k]
  }

  /** A chain of jumps that reaches a return is the same chain in any program
      that contains the code. */
  lemma {:induction false} RetChain(c: seq<Inst>, code: seq<Inst>, a: int, i: int, n: nat, n': nat)
    requires Embeds(c, code, a) && n <= n'
    requires var ft := FinalTarget(c, i, n); 0 <= ft < |c| && c[ft] == IRet
    ensures FinalTarget(code, a + i, n') == a + FinalTarget(c, i, n)
    decreases n
  {
    if n > 0 && 0 <= i < |c| && c[i].IJmp? {
      assert code[a + i] == c[i];
      RetChain(c, code, a, i + c[i].off, n - 1, n' - 1);
    } else {
      assert code[a + i] == IRet;
    }
  }

  ghost predicate CallClosed(c: seq<Inst>, pos: seq<int>, k: int, r: nat)
    requires 0 <= k < |c|
  {
    r < |pos| && (c[k] == ICall(pos[r] - k) || (c[k] == IJmp(pos[r] - k) && LeadsToRet(c, k + 2)))
  }

  /** `c` is `code` with its open calls, from slot `i` on, closed. */
  ghost predicate Closes(code: seq<Inst>, c: seq<Inst>, pos: seq<int>, i: nat)
  {
    SameButCalls(code, c) &&
    forall k :: i <= k < |code| && code[k].IOpenCall? && code[k].rule < |pos| ==> CallClosed(c, pos, k, code[k].rule)
  }

  /** Closing the first open call, then the others. */
  lemma {:induction false} CloseFirst(code: seq<Inst>, code1: seq<Inst>, c: seq<Inst>, pos: seq<int>, i: nat)
    requires i < |code| && code[i].IOpenCall? && code[i].rule < |pos|
    requires var off := pos[code[i].rule] - i;
      code1 == code[i := if LeadsToRet(code, i + 2) then IJmp(off) else ICall(off)]
    requires Closes(code1, c, pos, i + 1) && c[..i + 1] == code1[..i + 1]
    ensures Closes(code, c, pos, i) && c[..i] == code[..i]
  {
    assert c[i] == c[..i + 1][i] == code1[..i + 1][i] == code1[i];
    assert c[..i] == c[..i + 1][..i] == code1[..i + 1][..i] == code[..i];
    assert SameButCalls(code, c);
    if LeadsToRet(code, i + 2) { RetChain(code, c, 0, i + 2, |code|, |code|); }
    assert CallClosed(c, pos, i, code[i].rule);
    forall k | i <= k < |code| && code[k].IOpenCall? && code[k].rule < |pos|
      ensures CallClosed(c, pos, k, code[k].rule)
    {
      if k > i { assert code1[k] == code[k]; }
    }
  }

  lemma {:induction false} CorrectCallsSpec(code: seq<Inst>, pos: seq<int>, i: nat)
    requires i <= |code|
    ensures var c := CorrectCalls(code, pos, i); Closes(code, c, pos, i) && c[..i] == code[..i]
    decreases |code| - i
  {
    if i < |code| {
      if code[i].IOpenCall? && code[i].rule < |pos| {
        var off := pos[code[i].rule] - i;
        var inst := if LeadsToRet(code, i + 2) then IJmp(off) else ICall(off);
        var code1 := code[i := inst];
        CorrectCallsSpec(code1, pos, i + 1);
        var c := CorrectCalls(code1, pos, i + 1);
        CloseFirst(code, code1, c, pos, i);
      } else {
        CorrectCallsSpec(code, pos, i + 1);
        var c := CorrectCalls(code, pos, i + 1);
        assert c[..i] == c[..i + 1][..i] == code[..i + 1][..i] == code[..i];
      }
    }
  }

  /** Open calls left in a piece of code name rules below `n`. */
  ghost predicate CallsBelow(c: seq<Inst>, n: nat)
  {
    forall inst :: inst in c && inst.IOpenCall? ==> inst.rule < n
  }

  lemma {:induction false} GenCalls(g: Grammar, t: Tree, opt: bool, tt: Guard, fl: Charset, d: nat)
    requires Closed(g, t, d)
    ensures CallsBelow(Gen(g, t, opt, tt, fl, d), |g|)
    decreases t, 1
  {
    match t
    case TChoice(p1, p2) => ChoiceCalls(g, p1, p2, t, opt, fl, d);
    case TRep(p) => RepCalls(g, p, t, opt, fl, d);
    case TBehind(n, p) =>
      GenCalls(g, p, false, NoGuard, FULL, d);
      assert CallsBelow(GenBehind(g, n, p, t, d), |g|);
    case TNot(p) =>
      GenCalls(g, p, false, NoGuard, FULL, d);
      assert CallsBelow(GenNot(g, p, t, d), |g|);
    case TAnd(p) =>
      GenCalls(g, p, false, tt, FULL, d);
      assert CallsBelow(GenAnd(g, p, t, tt, d), |g|);
    case TSeq(p1, p2) =>
      GenCalls(g, p1, false, tt, if NeedFollow(p1) then GetFirst(g, p2, fl, d).cs else FULL, d);
      GenCalls(g, p2, opt, if FixedLen(g, p1, d) != 0 then NoGuard else tt, fl, d);
      assert CallsBelow(GenSeq(g, p1, p2, t, opt, tt, fl, d), |g|);
    case TGrammar(rs) =>
      RulesCalls(rs, rs, d);
      GrammarCalls(rs, d);
    case _ =>
  }

  lemma {:induction false} GrammarCalls(rs: Grammar, d: nat)
    requires CallsBelow(GenRules(rs, rs, d), |rs|)
    ensures CallsBelow(CorrectCalls(RawGrammar(rs, GenRules(rs, rs, d)), Positions(rs, rs, 4, d), 0), 0)
  {
    var pos := Positions(rs, rs, 4, d);
    var raw := RawGrammar(rs, GenRules(rs, rs, d));
    CorrectCallsSpec(raw, pos, 0);
    var c := CorrectCalls(raw, pos, 0);
    forall k | 0 <= k < |c| ensures !c[k].IOpenCall? {
      if raw[k].IOpenCall? {
        assert raw[k] in GenRules(rs, rs, d);
        assert CallClosed(c, pos, k, raw[k].rule);
      }
    }
  }

  lemma {:induction false} RepCalls(g: Grammar, p: Tree, t: Tree, opt: bool, fl: Charset, d: nat)
    requires t == TRep(p) && Closed(g, t, d)
    ensures CallsBelow(GenRep(g, p, t, opt, fl, d), |g|)
    decreases t, 0
  {
    var f1 := GetFirst(g, p, FULL, d);
    if !IsCharset(p) {
      if HeadFail(g, p, d) || (!f1.empty && f1.cs !! fl) {
        GenCalls(g, p, false, TestGuard(First(f1.cs, false)), FULL, d);
      } else {
        GenCalls(g, p, false, NoGuard, FULL, d);
      }
    }
  }

  lemma {:induction false} ChoiceCalls(g: Grammar, p1: Tree, p2: Tree, t: Tree, opt: bool, fl: Charset, d: nat)
    requires t == TChoice(p1, p2) && Closed(g, t, d)
    ensures CallsBelow(GenChoice(g, p1, p2, t, opt, fl, d), |g|)
    decreases t, 0
  {
    var f1 := GetFirst(g, p1, FULL, d);
    GenCalls(g, p2, opt, NoGuard, fl, d);
    if TestDecides(g, p1, p2, fl, d) {
      GenCalls(g, p1, false, GuardOf(f1.cs), fl, d);
    } else if opt && p2.TTrue? {
      GenCalls(g, p1, true, NoGuard, FULL, d);
    } else {
      GenCalls(g, p1, p2.TTrue?, TestGuard(f1), FULL, d);
    }
  }

  lemma {:induction false} RulesCalls(g: Grammar, rest: Grammar, d: nat)
    requires forall p :: p in rest ==> Closed(g, p, d)
    ensures CallsBelow(GenRules(g, rest, d), |g|)
    decreases rest, 0
  {
    if rest != [] {
      GenCalls(g, rest[0], false, NoGuard, FULL, d);
      RulesCalls(g, rest[1..], d);
    }
  }

  ghost predicate Sub(c: seq<Inst>, k: int, piece: seq<Inst>)
  {
    0 <= k && k + |piece| <= |c| && c[k..k + |piece|] == piece
  }

  /** Each rule's code sits at the address `positions` gives it. */
  lemma {:induction false} RulesAt(g: Grammar, rest: Grammar, start: nat, d: nat, raw: seq<Inst>)
    requires Sub(raw, start, GenRules(g, rest, d))
    ensures forall r :: 0 <= r < |rest| ==> Sub(raw, Positions(g, rest, start, d)[r], RuleCode(g, rest[r], d))
    decreases |rest|
  {
    if rest != [] {
      var c := RuleCode(g, rest[0], d);
      var tail := GenRules(g, rest[1..], d);
      assert GenRules(g, rest, d) == c + tail;
      var piece, mid := raw[start..start + |c| + |tail|], start + |c|;
      assert piece == c + tail;
      assert raw[start..mid] == piece[..|c|] == c;
      assert raw[mid..mid + |tail|] == piece[|c|..] == tail;
      RulesAt(g, rest[1..], mid, d, raw);
      forall r | 0 <= r < |rest|
        ensures Sub(raw, Positions(g, rest, start, d)[r], RuleCode(g, rest[r], d))
      {
        if r > 0 {
          assert rest[r] == rest[1..][r - 1];
          assert Sub(raw, Positions(g, rest[1..], mid, d)[r - 1], RuleCode(g, rest[1..][r - 1], d));
        }
      }
    }
  }

  // ------------------------------------------------------- the main theorem

  /** What may be assumed when the code of `t` is entered at `a`. */
  ghost predicate Entry(x: Ctx, t: Tree, opt: bool, tt: Guard, fl: Charset, a: int, i: nat, stk: Stack, f: nat)
  {
    && Env(x) && Closed(x.g, t, x.d)
    && At(x, a, Code(x, t, opt, tt, fl))
    && i <= |x.s| && GuardHolds(tt, x.s, i)
    && (opt ==> fl == FULL && stk.Back?)
    && After(x, Peg(x.g, t, x.s, i, f), a + |Code(x, t, opt, tt, fl)|, stk, opt, fl)
  }

  /** A continuation that may reuse the choice entry also works without. */
  lemma {:induction false} ContPlain(x: Ctx, b: int, j: nat, stk: Stack, opt: bool, fl: Charset)
    requires Cont(x, b, j, stk, opt, fl)
    ensures Run(b, j, stk) in x.good
  {
    if opt { AnyTopAt(x, b, j, stk.p, stk.s, stk.rest); }
  }

  /** Entering the code of `t` gives the answer of the continuation after the
      result of `t`. */
  lemma {:induction false} Sim(x: Ctx, t: Tree, opt: bool, tt: Guard, fl: Charset, a: int, i: nat, stk: Stack, f: nat)
    requires Entry(x, t, opt, tt, fl, a, i, stk, f)
    ensures Run(a, i, stk) in x.good
    decreases f, 3
  {
    var c := Code(x, t, opt, tt, fl);
    var res := Peg(x.g, t, x.s, i, f);
    if res.Ok? { ContPlain(x, a + |c|, res.pos, stk, opt, fl); }
    match t
    case TChar(ch) => AtInst(x, a, c, 0); Go(x, a, i, stk);
    case TAny => AtInst(x, a, c, 0); Go(x, a, i, stk);
    case TSet(cs) => SimCharset(x, cs, tt, a, i, stk);
    case TTrue =>
    case TFalse => AtInst(x, a, c, 0); Go(x, a, i, stk);
    case TChoice(p1, p2) => SimChoice(x, t, opt, tt, fl, a, i, stk, f);
    case TRep(p) => SimRep(x, t, opt, tt, fl, a, i, stk, f);
    case TBehind(n, p) => SimBehind(x, t, opt, tt, fl, a, i, stk, f);
    case TNot(p) => SimNot(x, t, opt, tt, fl, a, i, stk, f);
    case TAnd(p) => SimAnd(x, t, opt, tt, fl, a, i, stk, f);
    case TSeq(p1, p2) => SimSeq(x, t, opt, tt, fl, a, i, stk, f);
    case TCall(rule) => SimCall(x, t, opt, tt, fl, a, i, stk, f);
    case TGrammar(rs) => SimGrammar(x, t, opt, tt, fl, a, i, stk, f);
  }

  lemma {:induction false} SimBehind(x: Ctx, t: Tree, opt: bool, tt: Guard, fl: Charset, a: int, i: nat, stk: Stack,
      f: nat)
    requires Entry(x, t, opt, tt, fl, a, i, stk, f) && t.TBehind?
    ensures Run(a, i, stk) in x.good
    decreases f, 2
  {
    var TBehind(n, p) := t;
    var c := Code(x, p, false, NoGuard, FULL);
    var head := if n > 0 then [IBehind(n)] else [];
    CodeBehind(x, n, p, opt, tt, fl);
    AtConcat(x, a, head, c);
    if n > 0 { AtInst(x, a, head, 0); }
    if n <= i {
      var res := Peg(x.g, p, x.s, i - n, f - 1);
      if res.Ok? {
        FixedLenSound(x.g, p, x.s, i - n, f - 1, x.d);
        ContPlain(x, a + |head + c|, i, stk, opt, fl);
      }
      Sim(x, p, false, NoGuard, FULL, a + |head|, i - n, stk, f - 1);
    }
    if n > 0 { Go(x, a, i, stk); }
  }

  lemma {:induction false} SimSeq(x: Ctx, t: Tree, opt: bool, tt: Guard, fl: Charset, a: int, i: nat, stk: Stack,
      f: nat)
    requires Entry(x, t, opt, tt, fl, a, i, stk, f) && t.TSeq?
    ensures Run(a, i, stk) in x.good
    decreases f, 2
  {
    var TSeq(p1, p2) := t;
    var fl1 := if NeedFollow(p1) then GetFirst(x.g, p2, fl, x.d).cs else FULL;
    var tt2 := if FixedLen(x.g, p1, x.d) != 0 then NoGuard else tt;
    var c1 := Code(x, p1, false, tt, fl1);
    var c2 := Code(x, p2, opt, tt2, fl);
    CodeSeq(x, p1, p2, opt, tt, fl);
    AtConcat(x, a, c1, c2);
    var res := Peg(x.g, p1, x.s, i, f - 1);
    if res.Ok? {
      var j := res.pos;
      if FixedLen(x.g, p1, x.d) == 0 { FixedLenSound(x.g, p1, x.s, i, f - 1, x.d); }
      Sim(x, p2, opt, tt2, fl, a + |c1|, j, stk, f - 1);
      if j < |x.s| && x.s[j] !in fl1 && Peg(x.g, p2, x.s, j, f - 1).Ok? {
        FirstSound(x.g, p2, x.s, j, f - 1, fl, x.d);
      }
    }
    Sim(x, p1, false, tt, fl1, a, i, stk, f - 1);
  }

  lemma {:induction false} SimCall(x: Ctx, t: Tree, opt: bool, tt: Guard, fl: Charset, a: int, i: nat, stk: Stack,
      f: nat)
    requires Entry(x, t, opt, tt, fl, a, i, stk, f) && t.TCall?
    ensures Run(a, i, stk) in x.good
    decreases f, 2
  {
    var res := Peg(x.g, x.g[t.rule], x.s, i, f - 1);
    var n := |Code(x, x.g[t.rule], false, NoGuard, FULL)|;
    assert Slot(x, a, [IOpenCall(t.rule), Ext], 0);
    if res.Ok? { ContPlain(x, a + 2, res.pos, stk, opt, fl); }
    SimRule(x, t.rule, i, if x.code[a].ICall? then RetTo(a + 2, stk) else stk, f - 1);
    RunCall(x, x.pos[t.rule], n, a, i, stk, res);
  }

  /** A call, or a jump when the call is followed by a return. */
  lemma {:induction false} RunCall(x: Ctx, start: int, n: nat, a: int, i: nat, stk: Stack, res: Res)
    requires Steady(x) && i <= |x.s| && (res.Ok? ==> res.pos <= |x.s|) && HasInst(x, start + n, IRet)
    requires 0 <= a < |x.code|
    requires x.code[a] == ICall(start - a) || (x.code[a] == IJmp(start - a) && LeadsToRet(x.code, a + 2))
    requires Runs(x, res, start, n, false, FULL, i, if x.code[a].ICall? then RetTo(a + 2, stk) else stk)
    requires match res
             case Out => false
             case Fail => FailTo(stk) in x.good
             case Ok(j) => Run(a + 2, j, stk) in x.good
    ensures Run(a, i, stk) in x.good
  {
    if res.Ok? {
      if x.code[a].ICall? {
        Go(x, start + n, res.pos, RetTo(a + 2, stk));
      } else {
        JumpChain(x, a + 2, |x.code|, res.pos, stk);
        var ft := FinalTarget(x.code, a + 2, |x.code|);
        assert Step(x.code, x.s, Run(ft, res.pos, stk)) == Step(x.code, x.s, Run(start + n, res.pos, stk));
        Go(x, start + n, res.pos, stk);
      }
    }
    Go(x, a, i, stk);
  }

  // -------------------------------------------------------------- predicates

  /** Running the code of an inner pattern does what its result says. */
  ghost predicate Runs(x: Ctx, res: Res, a: int, n: nat, opt: bool, fl: Charset, i: nat, stk: Stack)
  {
    After(x, res, a + n, stk, opt, fl) ==> Run(a, i, stk) in x.good
  }

  lemma {:induction false} SimInner(x: Ctx, p: Tree, opt: bool, tt: Guard, fl: Charset, c: seq<Inst>, a: int, i: nat,
      stk: Stack, f: nat)
    requires Env(x) && Closed(x.g, p, x.d) && i <= |x.s| && GuardHolds(tt, x.s, i) && (opt ==> fl == FULL && stk.Back?)
    requires c == Code(x, p, opt, tt, fl) && At(x, a, c)
    ensures Runs(x, Peg(x.g, p, x.s, i, f), a, |c|, opt, fl, i, stk)
    decreases f, 4
  {
    if After(x, Peg(x.g, p, x.s, i, f), a + |c|, stk, opt, fl) {
      Sim(x, p, opt, tt, fl, a, i, stk, f);
    }
  }

  /** test -> L; choice L; p; failtwice; L: */
  lemma {:induction false} RunNot(x: Ctx, fs: First, c: seq<Inst>, a: int, i: nat, stk: Stack, res: Res)
    requires Steady(x) && i <= |x.s| && (res.Ok? ==> res.pos <= |x.s|)
    requires At(x, a, Test(fs, 3 + |c|) + [IChoice(3 + |c|), Ext] + c + [IFailTwice])
    requires var a1 := a + TLen(fs);
      && (Takes(x, fs, i) ==> Runs(x, res, a1 + 2, |c|, false, FULL, i, Back(a1 + 3 + |c|, i, stk)))
      && match res
         case Out => false
         case Fail => Run(a1 + 3 + |c|, i, stk) in x.good
         case Ok(_) => Takes(x, fs, i) && FailTo(stk) in x.good
    ensures Run(a, i, stk) in x.good
  {
    var choice := [IChoice(3 + |c|), Ext];
    AtConcat4(x, a, Test(fs, 3 + |c|), choice, c, [IFailTwice]);
    var a1 := a + TLen(fs);
    AtInst(x, a1, choice, 0);
    AtInst(x, a1 + 2 + |c|, [IFailTwice], 0);
    if Takes(x, fs, i) {
      if res.Ok? { Go(x, a1 + 2 + |c|, res.pos, Back(a1 + 3 + |c|, i, stk)); }
      Go(x, a1, i, stk);
    }
    GoTest(x, a, fs, 3 + |c|, i, stk);
  }

  lemma {:induction false} SimNot(x: Ctx, t: Tree, opt: bool, tt: Guard, fl: Charset, a: int, i: nat, stk: Stack,
      f: nat)
    requires Entry(x, t, opt, tt, fl, a, i, stk, f) && t.TNot?
    ensures Run(a, i, stk) in x.good
    decreases f, 2
  {
    var p := t.body;
    var fs := GetFirst(x.g, p, FULL, x.d);
    var res := Peg(x.g, p, x.s, i, f - 1);
    if res.Ok? { FirstSound(x.g, p, x.s, i, f - 1, FULL, x.d); }
    else { ContPlain(x, a + |Code(x, t, opt, tt, fl)|, i, stk, opt, fl); }
    if HeadFail(x.g, p, x.d) {
      HeadFailExact(x.g, p, x.s, i, f - 1, x.d);
      CodeNot(x, p, opt, tt, fl);
      RunNotHead(x, fs, a, i, stk, res);
    } else {
      CodeNot(x, p, opt, tt, fl);
      SimNotBack(x, p, fs, Code(x, p, false, NoGuard, FULL), a, i, stk, f - 1);
    }
  }

  lemma {:induction false} SimNotBack(x: Ctx, p: Tree, fs: First, c: seq<Inst>, a: int, i: nat, stk: Stack, f: nat)
    requires Env(x) && Closed(x.g, p, x.d) && i <= |x.s| && c == Code(x, p, false, NoGuard, FULL)
    requires At(x, a, Test(fs, 3 + |c|) + [IChoice(3 + |c|), Ext] + c + [IFailTwice])
    requires match Peg(x.g, p, x.s, i, f)
         case Out => false
         case Fail => Run(a + TLen(fs) + 3 + |c|, i, stk) in x.good
         case Ok(_) => Takes(x, fs, i) && FailTo(stk) in x.good
    ensures Run(a, i, stk) in x.good
    decreases f, 6
  {
    AtConcat4(x, a, Test(fs, 3 + |c|), [IChoice(3 + |c|), Ext], c, [IFailTwice]);
    var a1 := a + TLen(fs);
    SimInner(x, p, false, NoGuard, FULL, c, a1 + 2, i, Back(a1 + 3 + |c|, i, stk), f);
    RunNot(x, fs, c, a, i, stk, Peg(x.g, p, x.s, i, f));
  }

  /** test -> L; fail; L: */
  lemma {:induction false} RunNotHead(x: Ctx, fs: First, a: int, i: nat, stk: Stack, res: Res)
    requires Steady(x) && i <= |x.s| && At(x, a, Test(fs, 1) + [IFail])
    requires match res
             case Out => false
             case Fail => !Takes(x, fs, i) && Run(a + TLen(fs) + 1, i, stk) in x.good
             case Ok(_) => Takes(x, fs, i) && FailTo(stk) in x.good
    ensures Run(a, i, stk) in x.good
  {
    AtConcat(x, a, Test(fs, 1), [IFail]);
    AtInst(x, a + TLen(fs), [IFail], 0);
    if res.Ok? { Go(x, a + TLen(fs), i, stk); }
    GoTest(x, a, fs, 1, i, stk);
  }

  /** choice L1; p; backcommit L2; L1: fail; L2: */
  lemma {:induction false} RunAnd(x: Ctx, c: seq<Inst>, a: int, i: nat, stk: Stack, res: Res)
    requires Steady(x) && i <= |x.s| && (res.Ok? ==> res.pos <= |x.s|)
    requires At(x, a, [IChoice(4 + |c|), Ext] + c + [IBackCommit(3), Ext, IFail])
    requires Runs(x, res, a + 2, |c|, false, FULL, i, Back(a + 4 + |c|, i, stk))
    requires match res
             case Out => false
             case Fail => FailTo(stk) in x.good
             case Ok(_) => Run(a + 5 + |c|, i, stk) in x.good
    ensures Run(a, i, stk) in x.good
  {
    var head, tail := [IChoice(4 + |c|), Ext], [IBackCommit(3), Ext, IFail];
    AtConcat3(x, a, head, c, tail);
    AtInst(x, a, head, 0);
    AtInst(x, a + 2 + |c|, tail, 0);
    AtInst(x, a + 2 + |c|, tail, 2);
    if res.Ok? { Go(x, a + 2 + |c|, res.pos, Back(a + 4 + |c|, i, stk)); }
    else { Go(x, a + 4 + |c|, i, stk); }
    Go(x, a, i, stk);
  }

  lemma {:induction false} SimAnd(x: Ctx, t: Tree, opt: bool, tt: Guard, fl: Charset, a: int, i: nat, stk: Stack,
      f: nat)
    requires Entry(x, t, opt, tt, fl, a, i, stk, f) && t.TAnd?
    ensures Run(a, i, stk) in x.good
    decreases f, 2
  {
    var p := t.body;
    var n := FixedLen(x.g, p, x.d);
    var c := Code(x, p, false, tt, FULL);
    var res := Peg(x.g, p, x.s, i, f - 1);
    if res.Ok? { ContPlain(x, a + |Code(x, t, opt, tt, fl)|, i, stk, opt, fl); }
    if 0 <= n <= MAXBEHIND {
      var tail := if n > 0 then [IBehind(n)] else [];
      CodeAnd(x, p, opt, tt, fl);
      AtConcat(x, a, c, tail);
      if n > 0 { AtInst(x, a + |c|, tail, 0); }
      if res.Ok? {
        FixedLenSound(x.g, p, x.s, i, f - 1, x.d);
        if n > 0 { Go(x, a + |c|, res.pos, stk); }
      }
      Sim(x, p, false, tt, FULL, a, i, stk, f - 1);
    } else {
      CodeAnd(x, p, opt, tt, fl);
      AtConcat3(x, a, [IChoice(4 + |c|), Ext], c, [IBackCommit(3), Ext, IFail]);
      SimInner(x, p, false, tt, FULL, c, a + 2, i, Back(a + 4 + |c|, i, stk), f - 1);
      RunAnd(x, c, a, i, stk, res);
    }
  }

  // ------------------------------------------------------------------ choice

  lemma {:induction false} SimChoice(x: Ctx, t: Tree, opt: bool, tt: Guard, fl: Charset, a: int, i: nat, stk: Stack,
      f: nat)
    requires Entry(x, t, opt, tt, fl, a, i, stk, f) && t.TChoice?
    ensures Run(a, i, stk) in x.good
    decreases f, 2
  {
    var TChoice(p1, p2) := t;
    if TestDecides(x.g, p1, p2, fl, x.d) {
      SimChoiceTest(x, t, opt, tt, fl, a, i, stk, f);
    } else if opt && p2.TTrue? {
      var head, c1 := [IPartialCommit(2), Ext], Code(x, p1, true, NoGuard, FULL);
      CodeChoice(x, p1, p2, opt, tt, fl);
      AtConcat(x, a, head, c1);
      AtInst(x, a, head, 0);
      assert Peg(x.g, p1, x.s, i, f - 1).Fail? ==> Peg(x.g, p2, x.s, i, f - 1) == Ok(i);
      Sim(x, p1, true, NoGuard, FULL, a + 2, i, Back(stk.p, i, stk.rest), f - 1);
      Go(x, a, i, stk);
    } else {
      SimChoiceBack(x, t, opt, tt, fl, a, i, stk, f);
    }
  }

  lemma {:induction false} TestRefutes(x: Ctx, p1: Tree, p2: Tree, fl: Charset, fs: First, i: nat, f: nat)
    requires TestDecides(x.g, p1, p2, fl, x.d) && fs == First(GetFirst(x.g, p1, FULL, x.d).cs, false)
    requires i <= |x.s| && !Takes(x, fs, i)
    ensures !Peg(x.g, p1, x.s, i, f).Ok?
  {
    if Peg(x.g, p1, x.s, i, f).Ok? {
      FirstSound(x.g, p1, x.s, i, f, FULL, x.d);
      if HeadFail(x.g, p1, x.d) { HeadFailExact(x.g, p1, x.s, i, f, x.d); }
    }
  }

  /** When the test passes and `p1` fails, `p2` cannot lead to success: it
      fails too, or it matches nothing and the continuation must fail. */
  lemma {:induction false} TestCommits(x: Ctx, p1: Tree, p2: Tree, fl: Charset, fs: First, i: nat, f: nat)
    requires TestDecides(x.g, p1, p2, fl, x.d) && fs == First(GetFirst(x.g, p1, FULL, x.d).cs, false)
    requires i <= |x.s| && Takes(x, fs, i) && Peg(x.g, p1, x.s, i, f).Fail?
    ensures Peg(x.g, p2, x.s, i, f).Ok? ==> Peg(x.g, p2, x.s, i, f) == Ok(i) && x.s[i] !in fl
  {
    if HeadFail(x.g, p1, x.d) { HeadFailExact(x.g, p1, x.s, i, f, x.d); }
    if Peg(x.g, p2, x.s, i, f).Ok? { FirstSound(x.g, p2, x.s, i, f, fl, x.d); }
  }

  /** test -> L1; p1; jmp L2; L1: p2; L2:   (no jump when p2 is empty) */
  lemma {:induction false} RunChoiceTest(x: Ctx, fs: First, c1: seq<Inst>, jmp: seq<Inst>, n2: nat, opt: bool,
      fl: Charset, a: int, i: nat, stk: Stack, res1: Res, res2: Res)
    requires Steady(x) && i <= |x.s| && (res1.Ok? ==> res1.pos <= |x.s|) && (opt ==> fl == FULL && stk.Back?)
    requires At(x, a, Test(fs, |c1| + |jmp|) + c1 + jmp)
    requires (jmp == [] && n2 == 0) || jmp == [IJmp(2 + n2), Ext]
    requires var a1 := a + TLen(fs);
      var a2 := a1 + |c1| + |jmp|;
      && (Takes(x, fs, i) ==> Runs(x, res1, a1, |c1|, false, fl, i, stk))
      && (!Takes(x, fs, i) ==> !res1.Ok? && Runs(x, res2, a2, n2, opt, fl, i, stk))
      && (Takes(x, fs, i) && res1.Fail? && res2.Ok? ==> res2 == Ok(i) && i < |x.s| && x.s[i] !in fl)
      && After(x, if res1.Fail? then res2 else res1, a2 + n2, stk, opt, fl)
    ensures Run(a, i, stk) in x.good
  {
    AtConcat3(x, a, Test(fs, |c1| + |jmp|), c1, jmp);
    var a1 := a + TLen(fs);
    if res1.Ok? {
      ContPlain(x, a1 + |c1| + |jmp| + n2, res1.pos, stk, opt, fl);
      if |jmp| > 0 {
        AtInst(x, a1 + |c1|, jmp, 0);
        Go(x, a1 + |c1|, res1.pos, stk);
      }
    }
    GoTest(x, a, fs, |c1| + |jmp|, i, stk);
  }

  lemma {:induction false} LayoutChoiceTest(x: Ctx, p1: Tree, p2: Tree, opt: bool, tt: Guard, fl: Charset, a: int)
    requires At(x, a, Code(x, TChoice(p1, p2), opt, tt, fl)) && TestDecides(x.g, p1, p2, fl, x.d)
    ensures var fs := First(GetFirst(x.g, p1, FULL, x.d).cs, false);
      var c1 := Code(x, p1, false, TestGuard(fs), fl);
      var c2 := Code(x, p2, opt, NoGuard, fl);
      var jmp := if p2.TTrue? then [] else [IJmp(2 + |c2|), Ext];
      && At(x, a, Test(fs, |c1| + |jmp|) + c1 + jmp)
      && At(x, a + TLen(fs) + |c1| + |jmp|, c2)
      && |Code(x, TChoice(p1, p2), opt, tt, fl)| == TLen(fs) + |c1| + |jmp| + |c2|
  {
    var fs := First(GetFirst(x.g, p1, FULL, x.d).cs, false);
    var c1 := Code(x, p1, false, TestGuard(fs), fl);
    var c2 := Code(x, p2, opt, NoGuard, fl);
    var jmp := if p2.TTrue? then [] else [IJmp(2 + |c2|), Ext];
    var front := Test(fs, |c1| + |jmp|) + c1 + jmp;
    CodeChoice(x, p1, p2, opt, tt, fl);
    AtConcat(x, a, front, c2);
  }

  lemma {:induction false} SimChoiceTest(x: Ctx, t: Tree, opt: bool, tt: Guard, fl: Charset, a: int, i: nat, stk: Stack,
      f: nat)
    requires Entry(x, t, opt, tt, fl, a, i, stk, f) && t.TChoice?
    requires TestDecides(x.g, t.p1, t.p2, fl, x.d)
    ensures Run(a, i, stk) in x.good
    decreases f, 1
  {
    var TChoice(p1, p2) := t;
    LayoutChoiceTest(x, p1, p2, opt, tt, fl, a);
    var fs := First(GetFirst(x.g, p1, FULL, x.d).cs, false);
    var c2 := Code(x, p2, opt, NoGuard, fl);
    var jmp := if p2.TTrue? then [] else [IJmp(2 + |c2|), Ext];
    ChoiceTestParts(x, p1, p2, opt, fl, fs, Code(x, p1, false, TestGuard(fs), fl), jmp, c2, a, i, stk, f - 1);
  }

  lemma {:induction false} ChoiceTestParts(x: Ctx, p1: Tree, p2: Tree, opt: bool, fl: Charset, fs: First, c1: seq<Inst>,
      jmp: seq<Inst>, c2: seq<Inst>, a: int, i: nat, stk: Stack, f: nat)
    requires Env(x) && Closed(x.g, p1, x.d) && Closed(x.g, p2, x.d) && i <= |x.s| && (opt ==> fl == FULL && stk.Back?)
    requires TestDecides(x.g, p1, p2, fl, x.d) && fs == First(GetFirst(x.g, p1, FULL, x.d).cs, false)
    requires c1 == Code(x, p1, false, TestGuard(fs), fl) && c2 == Code(x, p2, opt, NoGuard, fl)
    requires (jmp == [] && |c2| == 0) || jmp == [IJmp(2 + |c2|), Ext]
    requires At(x, a, Test(fs, |c1| + |jmp|) + c1 + jmp) && At(x, a + TLen(fs) + |c1| + |jmp|, c2)
    requires var res1 := Peg(x.g, p1, x.s, i, f);
      After(x, if res1.Fail? then Peg(x.g, p2, x.s, i, f) else res1, a + TLen(fs) + |c1| + |jmp| + |c2|, stk, opt, fl)
    ensures Run(a, i, stk) in x.good
    decreases f, 5
  {
    var res1, res2 := Peg(x.g, p1, x.s, i, f), Peg(x.g, p2, x.s, i, f);
    var a1 := a + TLen(fs);
    if Takes(x, fs, i) {
      if res1.Fail? { TestCommits(x, p1, p2, fl, fs, i, f); }
      GuardTest(x, fs, i);
      AtConcat3(x, a, Test(fs, |c1| + |jmp|), c1, jmp);
      SimInner(x, p1, false, TestGuard(fs), fl, c1, a1, i, stk, f);
    } else {
      TestRefutes(x, p1, p2, fl, fs, i, f);
      SimInner(x, p2, opt, NoGuard, fl, c2, a1 + |c1| + |jmp|, i, stk, f);
    }
    RunChoiceTest(x, fs, c1, jmp, |c2|, opt, fl, a, i, stk, res1, res2);
  }

  /** test -> L1; choice L1; p1; commit L2; L1: p2; L2: */
  lemma {:induction false} RunChoice(x: Ctx, last: bool, fs: First, c1: seq<Inst>, n2: nat, a: int, i: nat, stk: Stack,
      res: Res)
    requires Steady(x) && i <= |x.s| && (res.Ok? ==> res.pos <= |x.s|) && (last ==> n2 == 0)
    requires At(x, a, Test(fs, 4 + |c1|) + [IChoice(4 + |c1|), Ext] + c1 + [ICommit(2 + n2), Ext])
    requires var a1 := a + TLen(fs);
      var l1 := a1 + 4 + |c1|;
      && (Takes(x, fs, i) ==> Runs(x, res, a1 + 2, |c1|, last, FULL, i, Back(l1, i, stk)))
      && match res
         case Out => false
         case Fail => Run(l1, i, stk) in x.good
         case Ok(j) => Takes(x, fs, i) && Run(l1 + n2, j, stk) in x.good
    ensures Run(a, i, stk) in x.good
  {
    var choice, commit := [IChoice(4 + |c1|), Ext], [ICommit(2 + n2), Ext];
    AtConcat4(x, a, Test(fs, 4 + |c1|), choice, c1, commit);
    var a1 := a + TLen(fs);
    AtInst(x, a1, choice, 0);
    AtInst(x, a1 + 2 + |c1|, commit, 0);
    if Takes(x, fs, i) {
      if res.Ok? {
        RunCommit(x, a1 + 2 + |c1|, n2, a1 + 4 + |c1|, res.pos, stk);
        AnyTopAt(x, a1 + 2 + |c1|, res.pos, a1 + 4 + |c1|, i, stk);
      }
      Go(x, a1, i, stk);
    }
    GoTest(x, a, fs, 4 + |c1|, i, stk);
  }

  lemma {:induction false} RunCommit(x: Ctx, k: int, n2: nat, l1: int, j: nat, stk: Stack)
    requires Steady(x) && HasInst(x, k, ICommit(2 + n2)) && j <= |x.s| && Run(k + 2 + n2, j, stk) in x.good
    ensures AnyTop(x, k, j, l1, stk)
  {
    forall q: nat ensures Run(k, j, Back(l1, q, stk)) in x.good { Go(x, k, j, Back(l1, q, stk)); }
  }

  lemma {:induction false} SimChoiceBack(x: Ctx, t: Tree, opt: bool, tt: Guard, fl: Charset, a: int, i: nat, stk: Stack,
      f: nat)
    requires Entry(x, t, opt, tt, fl, a, i, stk, f) && t.TChoice?
    requires !TestDecides(x.g, t.p1, t.p2, fl, x.d) && !(opt && t.p2.TTrue?)
    ensures Run(a, i, stk) in x.good
    decreases f, 1
  {
    var TChoice(p1, p2) := t;
    var fs := GetFirst(x.g, p1, FULL, x.d);
    var c1 := Code(x, p1, p2.TTrue?, TestGuard(fs), FULL);
    var c2 := Code(x, p2, opt, NoGuard, fl);
    var choice, commit := [IChoice(4 + |c1|), Ext], [ICommit(2 + |c2|), Ext];
    var front := Test(fs, 4 + |c1|) + choice + c1 + commit;
    CodeChoice(x, p1, p2, opt, tt, fl);
    AtConcat(x, a, front, c2);
    AtConcat4(x, a, Test(fs, 4 + |c1|), choice, c1, commit);
    var l1 := a + |front|;
    var res := Peg(x.g, p1, x.s, i, f - 1);
    if res.Ok? {
      ContPlain(x, l1 + |c2|, res.pos, stk, opt, fl);
      FirstSound(x.g, p1, x.s, i, f - 1, FULL, x.d);
    } else {
      Sim(x, p2, opt, NoGuard, fl, l1, i, stk, f - 1);
    }
    if Takes(x, fs, i) {
      GuardTest(x, fs, i);
      SimInner(x, p1, p2.TTrue?, TestGuard(fs), FULL, c1, a + TLen(fs) + 2, i, Back(l1, i, stk), f - 1);
    }
    RunChoice(x, p2.TTrue?, fs, c1, |c2|, a, i, stk, res);
  }

  // -------------------------------------------------------------- repetition

  lemma {:induction false} SpanPeg(g: Grammar, p: Tree, s: seq<Byte>, i: nat, f: nat)
    requires i <= |s| && IsCharset(p) && Peg(g, TRep(p), s, i, f) != Out
    ensures Peg(g, TRep(p), s, i, f) == Ok(SpanEnd(ToCharset(p), s, i))
    decreases f
  {
    var res := Peg(g, p, s, i, f - 1);
    if res.Ok? { SpanPeg(g, p, s, res.pos, f - 1); }
  }

  lemma {:induction false} SimRep(x: Ctx, t: Tree, opt: bool, tt: Guard, fl: Charset, a: int, i: nat, stk: Stack,
      f: nat)
    requires Entry(x, t, opt, tt, fl, a, i, stk, f) && t.TRep?
    ensures Run(a, i, stk) in x.good
    decreases f, 2
  {
    var p := t.body;
    var code := Code(x, t, opt, tt, fl);
    var fs := GetFirst(x.g, p, FULL, x.d);
    if IsCharset(p) {
      SpanPeg(x.g, p, x.s, i, f);
      CodeRep(x, p, opt, tt, fl);
      AtInst(x, a, code, 0);
      ContPlain(x, a + |code|, SpanEnd(ToCharset(p), x.s, i), stk, opt, fl);
      Go(x, a, i, stk);
    } else if HeadFail(x.g, p, x.d) || (!fs.empty && fs.cs !! fl) {
      SimRepTest(x, t, opt, tt, fl, a, i, stk, f);
    } else {
      SimRepLoop(x, t, opt, tt, fl, a, i, stk, f);
    }
  }

  /** L1: test -> L2; p; jmp L1; L2: */
  lemma {:induction false} RunRepTest(x: Ctx, fs: First, c: seq<Inst>, opt: bool, fl: Charset, a: int, i: nat,
      stk: Stack, res: Res)
    requires Steady(x) && i <= |x.s| && (res.Ok? ==> res.pos <= |x.s|)
    requires At(x, a, Test(fs, |c| + 2) + c + [IJmp(0 - TLen(fs) - |c|), Ext])
    requires Takes(x, fs, i) ==> Runs(x, res, a + TLen(fs), |c|, false, FULL, i, stk)
    requires match res
             case Out => false
             case Fail => Cont(x, a + TLen(fs) + |c| + 2, i, stk, opt, fl) &&
                          (Takes(x, fs, i) ==> !opt && i < |x.s| && x.s[i] !in fl)
             case Ok(j) => Takes(x, fs, i) && Run(a, j, stk) in x.good
    ensures Run(a, i, stk) in x.good
  {
    var jmp := [IJmp(0 - TLen(fs) - |c|), Ext];
    AtConcat3(x, a, Test(fs, |c| + 2), c, jmp);
    var e := a + TLen(fs) + |c|;
    AtInst(x, e, jmp, 0);
    if res.Ok? { Go(x, e, res.pos, stk); } else { ContPlain(x, e + 2, i, stk, opt, fl); }
    GoTest(x, a, fs, |c| + 2, i, stk);
  }

  /** The next round starts where the body stopped. */
  lemma {:induction false} SimRepAgain(x: Ctx, t: Tree, opt: bool, tt: Guard, fl: Charset, a: int, i: nat, stk: Stack,
      f: nat)
    requires Entry(x, t, opt, tt, fl, a, i, stk, f) && t.TRep? && f > 0 && Peg(x.g, t.body, x.s, i, f - 1).Ok?
    ensures Run(a, Peg(x.g, t.body, x.s, i, f - 1).pos, stk) in x.good
    decreases f, 0
  {
    CodeRep(x, t.body, opt, tt, fl);
    CodeRep(x, t.body, opt, NoGuard, fl);
    Sim(x, t, opt, NoGuard, fl, a, Peg(x.g, t.body, x.s, i, f - 1).pos, stk, f - 1);
  }

  lemma {:induction false} SimRepTest(x: Ctx, t: Tree, opt: bool, tt: Guard, fl: Charset, a: int, i: nat, stk: Stack,
      f: nat)
    requires Entry(x, t, opt, tt, fl, a, i, stk, f) && t.TRep? && !IsCharset(t.body)
    requires HeadFail(x.g, t.body, x.d) ||
             (var f1 := GetFirst(x.g, t.body, FULL, x.d); !f1.empty && f1.cs !! fl)
    ensures Run(a, i, stk) in x.good
    decreases f, 1
  {
    var p := t.body;
    var fs := First(GetFirst(x.g, p, FULL, x.d).cs, false);
    var c := Code(x, p, false, TestGuard(fs), FULL);
    var jmp := [IJmp(0 - TLen(fs) - |c|), Ext];
    CodeRep(x, p, opt, tt, fl);
    AtConcat3(x, a, Test(fs, |c| + 2), c, jmp);
    var res := Peg(x.g, p, x.s, i, f - 1);
    if HeadFail(x.g, p, x.d) { HeadFailExact(x.g, p, x.s, i, f - 1, x.d); }
    if res.Ok? {
      FirstSound(x.g, p, x.s, i, f - 1, FULL, x.d);
      SimRepAgain(x, t, opt, tt, fl, a, i, stk, f);
    }
    if Takes(x, fs, i) {
      GuardTest(x, fs, i);
      SimInner(x, p, false, TestGuard(fs), FULL, c, a + TLen(fs), i, stk, f - 1);
    }
    RunRepTest(x, fs, c, opt, fl, a, i, stk, res);
  }

  lemma {:induction false} SimRepLoop(x: Ctx, t: Tree, opt: bool, tt: Guard, fl: Charset, a: int, i: nat, stk: Stack,
      f: nat)
    requires Entry(x, t, opt, tt, fl, a, i, stk, f) && t.TRep? && !IsCharset(t.body)
    requires !HeadFail(x.g, t.body, x.d) &&
             (var f1 := GetFirst(x.g, t.body, FULL, x.d); !(!f1.empty && f1.cs !! fl))
    ensures Run(a, i, stk) in x.good
    decreases f, 1
  {
    var p := t.body;
    var fs := GetFirst(x.g, p, FULL, x.d);
    var c := Code(x, p, false, NoGuard, FULL);
    CodeRep(x, p, opt, tt, fl);
    NoFailSound(x.g, t, x.s, i, f, x.d);
    ContPlain(x, a + TLen(fs) + 4 + |c|, Peg(x.g, t, x.s, i, f).pos, stk, opt, fl);
    SimRepEnter(x, p, fs, c, opt, a, i, stk, f);
  }

  /** test -> L2; choice L2; L1: p; partialcommit L1; L2:   or, reusing the
      choice entry: test -> L2; partialcommit L1; L1: p; partialcommit L1; L2: */
  lemma {:induction false} SimRepEnter(x: Ctx, p: Tree, fs: First, c: seq<Inst>, opt: bool, a: int, i: nat, stk: Stack,
      f: nat)
    requires Env(x) && Closed(x.g, p, x.d) && i <= |x.s| && (opt ==> stk.Back?)
    requires fs == GetFirst(x.g, p, FULL, x.d) && c == Code(x, p, false, NoGuard, FULL)
    requires At(x, a, Test(fs, 4 + |c|) + [if opt then IPartialCommit(2) else IChoice(4 + |c|), Ext] + c +
                      [IPartialCommit(0 - |c|), Ext])
    requires var res := Peg(x.g, TRep(p), x.s, i, f);
      && res.Ok? && Run(a + TLen(fs) + 4 + |c|, res.pos, stk) in x.good
      && (opt ==> Run(stk.p, res.pos, stk.rest) in x.good)
    ensures Run(a, i, stk) in x.good
    decreases f, 0, 2
  {
    var choice := [if opt then IPartialCommit(2) else IChoice(4 + |c|), Ext];
    var again := [IPartialCommit(0 - |c|), Ext];
    AtConcat4(x, a, Test(fs, 4 + |c|), choice, c, again);
    var a1 := a + TLen(fs);
    AtInst(x, a1, choice, 0);
    AtInst(x, a1 + 2 + |c|, again, 0);
    if Takes(x, fs, i) {
      RepStart(x, p, c, opt, a1, i, stk, f);
    } else {
      RepSkipped(x, p, fs, i, f);
    }
    GoTest(x, a, fs, 4 + |c|, i, stk);
  }

  /** Where the test fails the repetition matches nothing. */
  lemma {:induction false} RepSkipped(x: Ctx, p: Tree, fs: First, i: nat, f: nat)
    requires i <= |x.s| && fs == GetFirst(x.g, p, FULL, x.d) && !Takes(x, fs, i)
    requires Peg(x.g, TRep(p), x.s, i, f).Ok?
    ensures Peg(x.g, TRep(p), x.s, i, f) == Ok(i)
  {
    if Peg(x.g, p, x.s, i, f - 1).Ok? { FirstSound(x.g, p, x.s, i, f - 1, FULL, x.d); }
  }

  lemma {:induction false} RepStart(x: Ctx, p: Tree, c: seq<Inst>, opt: bool, a1: int, i: nat, stk: Stack, f: nat)
    requires Env(x) && Closed(x.g, p, x.d) && i <= |x.s| && (opt ==> stk.Back?)
    requires c == Code(x, p, false, NoGuard, FULL)
    requires HasInst(x, a1, if opt then IPartialCommit(2) else IChoice(4 + |c|))
    requires At(x, a1 + 2, c) && HasInst(x, a1 + 2 + |c|, IPartialCommit(0 - |c|))
    requires var res := Peg(x.g, TRep(p), x.s, i, f);
      res.Ok? && (if opt then Run(stk.p, res.pos, stk.rest) else Run(a1 + 4 + |c|, res.pos, stk)) in x.good
    ensures Run(a1, i, stk) in x.good
    decreases f, 0, 1
  {
    if opt { RepLoop(x, p, c, a1 + 2, stk.p, i, stk.rest, f); }
    else { RepLoop(x, p, c, a1 + 2, a1 + 4 + |c|, i, stk, f); }
    Go(x, a1, i, stk);
  }

  /** The loop proper: every pass moves the choice entry to the new position. */
  lemma {:induction false} RepLoop(x: Ctx, p: Tree, c: seq<Inst>, l1: int, top: int, i: nat, rest: Stack, f: nat)
    requires Env(x) && Closed(x.g, p, x.d) && i <= |x.s|
    requires c == Code(x, p, false, NoGuard, FULL) && At(x, l1, c)
    requires HasInst(x, l1 + |c|, IPartialCommit(0 - |c|))
    requires var res := Peg(x.g, TRep(p), x.s, i, f); res.Ok? && Run(top, res.pos, rest) in x.good
    ensures Run(l1, i, Back(top, i, rest)) in x.good
    decreases f, 0, 0
  {
    var res := Peg(x.g, p, x.s, i, f - 1);
    if res.Ok? {
      RepLoop(x, p, c, l1, top, res.pos, rest, f - 1);
      Go(x, l1 + |c|, res.pos, Back(top, i, rest));
    }
    SimInner(x, p, false, NoGuard, FULL, c, l1, i, Back(top, i, rest), f - 1);
  }

  // ---------------------------------------------------------------- grammars

  function Shift(a: int, pos: seq<int>): seq<int>
  {
    seq(|pos|, k requires 0 <= k < |pos| => a + pos[k])
  }

  /** A rule's code, found in the closed code of its grammar, is in place. */
  lemma {:induction false} RuleInPlace(x: Ctx, raw: seq<Inst>, c: seq<Inst>, pos: seq<int>, a: int, start: int,
      piece: seq<Inst>)
    requires Closes(raw, c, pos, 0) && CallsBelow(raw, |pos|)
    requires Exactly(x, a, c) && x.pos == Shift(a, pos) && Sub(raw, start, piece)
    ensures At(x, a + start, piece)
  {
    var b := a + start;
    forall k | 0 <= k < |piece| ensures Slot(x, b, piece, k) {
      assert raw[start + k] == raw[start..start + |piece|][k];
      SlotInPlace(x, raw, c, pos, a, start + k);
    }
  }

  lemma {:induction false} SlotInPlace(x: Ctx, raw: seq<Inst>, c: seq<Inst>, pos: seq<int>, a: int, m: int)
    requires Closes(raw, c, pos, 0) && CallsBelow(raw, |pos|)
    requires Exactly(x, a, c) && x.pos == Shift(a, pos) && 0 <= m < |raw|
    ensures Holds(x, a + m, raw[m])
  {
    assert x.code[a + m] == c[m];
    if raw[m].IOpenCall? {
      var r := raw[m].rule;
      assert raw[m] in raw;
      assert CallClosed(c, pos, m, r);
      assert x.pos[r] == a + pos[r];
      if c[m].IJmp? { RetChain(c, x.code, a, m + 2, |c|, |x.code|); }
    }
  }

  ghost predicate Exactly(x: Ctx, a: int, c: seq<Inst>)
  {
    0 <= a && a + |c| <= |x.code| && forall k :: 0 <= k < |c| ==> x.code[a + k] == c[k]
  }

  lemma {:induction false} AtExactly(x: Ctx, a: int, c: seq<Inst>)
    requires At(x, a, c) && CallsBelow(c, 0)
    ensures Exactly(x, a, c)
  {
    forall k | 0 <= k < |c| ensures x.code[a + k] == c[k] {
      assert c[k] in c;
      AtInst(x, a, c, k);
    }
  }

  lemma {:induction false} RawCalls(rs: Grammar, d: nat)
    requires forall p :: p in rs ==> Closed(rs, p, d)
    ensures CallsBelow(RawGrammar(rs, GenRules(rs, rs, d)), |rs|)
    ensures CallsBelow(CorrectCalls(RawGrammar(rs, GenRules(rs, rs, d)), Positions(rs, rs, 4, d), 0), 0)
  {
    RulesCalls(rs, rs, d);
    GrammarCalls(rs, d);
  }

  lemma {:induction false} RawRules(rs: Grammar, d: nat, bodies: seq<Inst>)
    requires bodies == GenRules(rs, rs, d)
    ensures forall r :: 0 <= r < |rs| ==>
      Sub(RawGrammar(rs, bodies), Positions(rs, rs, 4, d)[r], RuleCode(rs, rs[r], d))
  {
    assert RawGrammar(rs, bodies)[4..4 + |bodies|] == bodies;
    RulesAt(rs, rs, 4, d, RawGrammar(rs, bodies));
  }

  /** Inside the code of a grammar every rule can be called. */
  lemma {:induction false} GrammarEnv(x: Ctx, rs: Grammar, raw: seq<Inst>, pos: seq<int>, a: int)
    requires Steady(x) && |rs| > 0 && (forall p :: p in rs ==> Closed(rs, p, x.d))
    requires raw == RawGrammar(rs, GenRules(rs, rs, x.d)) && pos == Positions(rs, rs, 4, x.d)
    requires At(x, a, CorrectCalls(raw, pos, 0))
    ensures Env(x.(g := rs, pos := Shift(a, pos)))
  {
    RawCalls(rs, x.d);
    CorrectCallsSpec(raw, pos, 0);
    AtExactly(x, a, CorrectCalls(raw, pos, 0));
    RawRules(rs, x.d, GenRules(rs, rs, x.d));
    RulesInPlace(x.(g := rs, pos := Shift(a, pos)), raw, CorrectCalls(raw, pos, 0), pos, a);
  }

  lemma {:induction false} RulesInPlace(x: Ctx, raw: seq<Inst>, c: seq<Inst>, pos: seq<int>, a: int)
    requires Closes(raw, c, pos, 0) && CallsBelow(raw, |pos|) && |pos| == |x.g|
    requires Exactly(x, a, c) && x.pos == Shift(a, pos)
    requires forall r :: 0 <= r < |x.g| ==> Sub(raw, pos[r], RuleCode(x.g, x.g[r], x.d))
    ensures forall r :: 0 <= r < |x.g| ==> At(x, x.pos[r], RuleCode(x.g, x.g[r], x.d))
  {
    forall r | 0 <= r < |x.g| ensures At(x, x.pos[r], RuleCode(x.g, x.g[r], x.d)) {
      RuleInPlace(x, raw, c, pos, a, pos[r], RuleCode(x.g, x.g[r], x.d));
    }
  }

  lemma {:induction false} SimGrammar(x: Ctx, t: Tree, opt: bool, tt: Guard, fl: Charset, a: int, i: nat, stk: Stack,
      f: nat)
    requires Entry(x, t, opt, tt, fl, a, i, stk, f) && t.TGrammar?
    ensures Run(a, i, stk) in x.good
    decreases f, 2
  {
    var rs := t.rules;
    var pos := Positions(rs, rs, 4, x.d);
    var raw := RawGrammar(rs, GenRules(rs, rs, x.d));
    var res := Peg(rs, rs[0], x.s, i, f - 1);
    CorrectCallsSpec(raw, pos, 0);
    if res.Ok? { ContPlain(x, a + |raw|, res.pos, stk, opt, fl); }
    SimGrammarCode(x, rs, raw, pos, a, i, stk, f - 1);
  }

  lemma {:induction false} SimGrammarCode(x: Ctx, rs: Grammar, raw: seq<Inst>, pos: seq<int>, a: int, i: nat,
      stk: Stack, f: nat)
    requires Steady(x) && i <= |x.s| && |rs| > 0 && (forall p :: p in rs ==> Closed(rs, p, x.d))
    requires raw == RawGrammar(rs, GenRules(rs, rs, x.d)) && pos == Positions(rs, rs, 4, x.d)
    requires At(x, a, CorrectCalls(raw, pos, 0))
    requires match Peg(rs, rs[0], x.s, i, f)
             case Out => false
             case Fail => FailTo(stk) in x.good
             case Ok(j) => Run(a + |raw|, j, stk) in x.good
    ensures Run(a, i, stk) in x.good
    decreases f, 6
  {
    GrammarEnv(x, rs, raw, pos, a);
    CorrectCallsSpec(raw, pos, 0);
    SimRule(x.(g := rs, pos := Shift(a, pos)), 0, i, RetTo(a + 2, stk), f);
    RunGrammar(x, raw, CorrectCalls(raw, pos, 0), |Gen(rs, rs[0], false, NoGuard, FULL, x.d)|, a, i, stk,
               Peg(rs, rs[0], x.s, i, f));
  }

  /** Running a rule from its address. */
  lemma {:induction false} SimRule(x: Ctx, k: nat, i: nat, stk: Stack, f: nat)
    requires Env(x) && k < |x.g| && i <= |x.s|
    ensures var n := |Code(x, x.g[k], false, NoGuard, FULL)|;
      HasInst(x, x.pos[k] + n, IRet) && Runs(x, Peg(x.g, x.g[k], x.s, i, f), x.pos[k], n, false, FULL, i, stk)
    decreases f, 5
  {
    var c := Code(x, x.g[k], false, NoGuard, FULL);
    AtConcat(x, x.pos[k], c, [IRet]);
    AtInst(x, x.pos[k] + |c|, [IRet], 0);
    SimInner(x, x.g[k], false, NoGuard, FULL, c, x.pos[k], i, stk, f);
  }

  /** call L1; jmp L2; L1: rule 1; ret; ...; L2: */
  lemma {:induction false} RunGrammar(x: Ctx, raw: seq<Inst>, code: seq<Inst>, n: nat, a: int, i: nat, stk: Stack,
      res: Res)
    requires Steady(x) && i <= |x.s| && (res.Ok? ==> res.pos <= |x.s|)
    requires |raw| >= 4 && raw[0] == ICall(4) && raw[2] == IJmp(|raw| - 2) && SameButCalls(raw, code) && At(x, a, code)
    requires HasInst(x, a + 4 + n, IRet) && Runs(x, res, a + 4, n, false, FULL, i, RetTo(a + 2, stk))
    requires match res
             case Out => false
             case Fail => FailTo(stk) in x.good
             case Ok(j) => Run(a + |code|, j, stk) in x.good
    ensures Run(a, i, stk) in x.good
  {
    AtInst(x, a, code, 0);
    AtInst(x, a, code, 2);
    if res.Ok? {
      Go(x, a + 2, res.pos, stk);
      Go(x, a + 4 + n, res.pos, RetTo(a + 2, stk));
    }
    Go(x, a, i, stk);
  }

  /** Compiler correctness: on every subject and from every start position the
      compiled pattern answers exactly what the pattern means. */
  lemma {:induction false} CompileCorrect(t: Tree, d: nat, s: seq<Byte>, i: nat, r: Res)
    requires Closed([], t, d) && i <= |s| && Matches([], t, s, i, r)
    ensures Yields(Compile(t, d), s, Run(0, i, Bottom), r)
  {
    var f: nat :| Peg([], t, s, i, f) == r;
    var code := Compile(t, d);
    var x := Ctx(code, s, [], [], d, iset st | Yields(code, s, st, r));
    forall st ensures st in x.good <==> Step(code, s, st) in x.good { YieldsStep(code, s, st, r); }
    var c := Gen([], t, false, NoGuard, FULL, d);
    GenCalls([], t, false, NoGuard, FULL, d);
    forall k | 0 <= k < |c| ensures Slot(x, 0, c, k) { assert c[k] in c; }
    assert Steps(code, s, Done(r), 0) == Done(r);
    if r.Ok? { Go(x, |c|, r.pos, Bottom); }
    Sim(x, t, false, NoGuard, FULL, 0, i, Bottom, f);
  }
}
