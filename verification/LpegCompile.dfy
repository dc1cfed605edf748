/** The compiler in the imperative form of lpcode.c: code is appended and patched
    in place, and calls are closed by a loop. */
module LpegCompile {
  import opened LpegTree
  import opened LpegVm
  import opened LpegCode
  import opened LpegCorrect
  import opened LpegPeephole

  const NOINST: int := -1

  /** The guard that the instruction at `tt` provides. */
  function GuardAt(code: seq<Inst>, tt: int): Guard
  {
    if !(0 <= tt < |code|) then NoGuard else
    match code[tt]
    case ITestChar(c, _) => GChar(c)
    case ITestSet(cs, _) => GSet(cs)
    case _ => NoGuard
  }

  type Insts = seq<Inst>

  lemma {:induction false} GuardPrefix(pre: Insts, x: Insts, tt: int)
    requires tt < |pre|
    ensures GuardAt(pre + x, tt) == GuardAt(pre, tt)
  {
  }

  /** The unpatched test instruction already is the guard. */
  lemma {:induction false} GuardTest0(pre: Insts, fs: First)
    ensures GuardAt(pre + Test0(fs), if fs.empty then NOINST else |pre|) == TestGuard(fs)
  {
  }

  /** A test whose offset is still to be set. */
  function Test0(fs: First): (c: Insts)
    ensures |c| == TLen(fs)
  {
    if fs.empty then [] else TestCode(fs.cs, 0)
  }

  /** Patching the instruction in front of `b`, and of `b + c`. */
  lemma {:induction false} Patch(a: Insts, inst: Inst, b: Insts, off: int)
    requires HasLabel(inst)
    ensures (a + [inst, Ext] + b)[|a|] == inst
    ensures (a + [inst, Ext] + b)[|a| := SetOff(inst, off)] == a + [SetOff(inst, off), Ext] + b
  {
  }

  lemma {:induction false} Patch0(a: Insts, inst: Inst, off: int)
    requires HasLabel(inst)
    ensures (a + [inst, Ext])[|a|] == inst
    ensures (a + [inst, Ext])[|a| := SetOff(inst, off)] == a + [SetOff(inst, off), Ext]
  {
  }

  lemma {:induction false} PatchTest(a: Insts, fs: First, b: Insts, skip: nat)
    requires !fs.empty
    ensures HasLabel(TestInst(fs.cs, 0)) && (a + Test0(fs) + b)[|a|] == TestInst(fs.cs, 0)
    ensures (a + Test0(fs) + b)[|a| := SetOff(TestInst(fs.cs, 0), TestLen(fs.cs) + skip)] == a + Test(fs, skip) + b
  {
    var e := Exts(TestLen(fs.cs) - 1);
    var ti := TestInst(fs.cs, TestLen(fs.cs) + skip);
    assert SetOff(TestInst(fs.cs, 0), TestLen(fs.cs) + skip) == ti;
    PatchHead(a, TestInst(fs.cs, 0), e, b, ti);
  }

  lemma {:induction false} PatchHead(a: Insts, inst: Inst, e: Insts, b: Insts, inst': Inst)
    ensures (a + ([inst] + e) + b)[|a|] == inst
    ensures (a + ([inst] + e) + b)[|a| := inst'] == a + ([inst'] + e) + b
  {
  }

  lemma {:induction false} Assoc3(a: Insts, b: Insts, c: Insts)
    ensures a + b + c == a + (b + c)
  {
  }

  lemma {:induction false} Assoc4(a: Insts, b: Insts, c: Insts, d: Insts)
    ensures a + b + c + d == a + (b + c + d) && a + b + c + d == a + b + (c + d)
  {
  }

  lemma {:induction false} Assoc5(a: Insts, b: Insts, c: Insts, d: Insts, e: Insts)
    ensures a + b + c + d + e == a + (b + c + d + e) && a + b + c + d + e == a + b + (c + d + e)
  {
    Assoc4(a, b, c, d);
    Assoc3(a, b + c + d, e);
    Assoc4(a + b, c, d, e);
  }

  lemma {:induction false} RulesSnoc(g: Grammar, rest: Grammar, t: Tree, d: nat)
    ensures GenRules(g, rest + [t], d) == GenRules(g, rest, d) + RuleCode(g, t, d)
    decreases |rest|
  {
    if rest == [] {
      assert rest + [t] == [t];
      assert GenRules(g, [t][1..], d) == [];
    } else {
      assert (rest + [t])[1..] == rest[1..] + [t];
      RulesSnoc(g, rest[1..], t, d);
      Assoc3(RuleCode(g, rest[0], d), GenRules(g, rest[1..], d), RuleCode(g, t, d));
    }
  }

  lemma {:induction false} SnocCons(a: int, q: seq<int>, b: int)
    ensures [a] + (q + [b]) == [a] + q + [b]
  {
  }

  lemma {:induction false} PositionsSnoc(g: Grammar, rest: Grammar, t: Tree, start: int, d: nat)
    ensures Positions(g, rest + [t], start, d) == Positions(g, rest, start, d) + [start + |GenRules(g, rest, d)|]
    decreases |rest|
  {
    var all := rest + [t];
    if rest == [] {
      PositionsCons(g, all, start, d);
      assert all[1..] == [];
    } else {
      assert all[1..] == rest[1..] + [t] && all[0] == rest[0];
      PositionsCons(g, all, start, d);
      PositionsCons(g, rest, start, d);
      var next := start + |RuleCode(g, rest[0], d)|;
      PositionsSnoc(g, rest[1..], t, next, d);
      SnocCons(start, Positions(g, rest[1..], next, d), next + |GenRules(g, rest[1..], d)|);
    }
  }

  lemma {:induction false} PositionsCons(g: Grammar, rest: Grammar, start: int, d: nat)
    requires rest != []
    ensures Positions(g, rest, start, d) == [start] + Positions(g, rest[1..], start + |RuleCode(g, rest[0], d)|, d)
    ensures |GenRules(g, rest, d)| == |RuleCode(g, rest[0], d)| + |GenRules(g, rest[1..], d)|
  {
  }

  class CompileState {
    var code: seq<Inst>

    constructor ()
      ensures code == []
    {
      code := [];
    }

    method AddInstruction(inst: Inst) returns (i: int)
      modifies this
      ensures code == old(code) + [inst] && i == |old(code)|
    {
      i := |code|;
      code := code + [inst];
    }

    method AddOffsetInst(inst: Inst) returns (i: int)
      modifies this
      ensures code == old(code) + [inst, Ext] && i == |old(code)|
    {
      i := AddInstruction(inst);
      var _ := AddInstruction(Ext);
      assert code == old(code) + [inst, Ext];
    }

    method AddCharset(n: nat)
      modifies this
      ensures code == old(code) + Exts(n)
    {
      for k := 0 to n
        invariant code == old(code) + Exts(k)
      {
        var _ := AddInstruction(Ext);
        assert Exts(k + 1) == Exts(k) + [Ext];
      }
    }

    /** Patch `instruction`, if there is one, to jump to `target`. */
    method JumpToThere(instruction: int, target: int)
      requires instruction >= 0 ==> instruction < |code| && HasLabel(code[instruction])
      modifies this
      ensures instruction < 0 ==> code == old(code)
      ensures instruction >= 0 ==>
        code == old(code)[instruction := SetOff(old(code)[instruction], target - instruction)]
    {
      if instruction >= 0 {
        code := code[instruction := SetOff(code[instruction], target - instruction)];
      }
    }

    method JumpToHere(instruction: int)
      requires instruction >= 0 ==> instruction < |code| && HasLabel(code[instruction])
      modifies this
      ensures instruction < 0 ==> code == old(code)
      ensures instruction >= 0 ==>
        code == old(code)[instruction := SetOff(old(code)[instruction], |old(code)| - instruction)]
    {
      JumpToThere(instruction, |code|);
    }

    method EmitChar(c: Byte, tt: int)
      modifies this
      ensures code == old(code) + CodeChar(c, GuardAt(old(code), tt))
    {
      if 0 <= tt < |code| && code[tt].ITestChar? && code[tt].c == c {
        var _ := AddInstruction(IAny);
      } else {
        var _ := AddInstruction(IChar(c));
      }
    }

    method EmitCharset(cs: Charset, tt: int)
      modifies this
      ensures code == old(code) + CodeCharset(cs, GuardAt(old(code), tt))
    {
      match CharsetType(cs)
      case KChar(c) => EmitChar(c, tt);
      case KSet =>
        if 0 <= tt < |code| && code[tt].ITestSet? && code[tt].cs == cs {
          var _ := AddInstruction(IAny);
        } else {
          EmitWide(ISet(cs));
        }
      case KFail => var _ := AddInstruction(IFail);
      case KAny => var _ := AddInstruction(IAny);
    }

    /** An instruction and its set. */
    method EmitWide(inst: Inst)
      modifies this
      ensures code == old(code) + ([inst] + Exts(CHARSETINSTSIZE - 1))
    {
      var _ := AddInstruction(inst);
      AddCharset(CHARSETINSTSIZE - 1);
      Assoc3(old(code), [inst], Exts(CHARSETINSTSIZE - 1));
    }

    /** `codetestset`; the offset is patched later. */
    method EmitTest(fs: First) returns (test: int)
      modifies this
      ensures test == if fs.empty then NOINST else |old(code)|
      ensures code == old(code) + Test0(fs)
    {
      if fs.empty { return NOINST; }
      test := AddInstruction(TestInst(fs.cs, 0));
      AddCharset(TestLen(fs.cs) - 1);
    }

    /** `codegen`: appends the code of the tree. */
    method Codegen(g: Grammar, t: Tree, opt: bool, tt: int, fl: Charset, d: nat)
      requires tt < |code|
      modifies this
      ensures code == old(code) + Gen(g, t, opt, GuardAt(old(code), tt), fl, d)
      decreases t, 9
    {
      match t
      case TChar(c) => EmitChar(c, tt);
      case TAny => var _ := AddInstruction(IAny);
      case TSet(cs) => EmitCharset(cs, tt);
      case TTrue =>
      case TFalse => var _ := AddInstruction(IFail);
      case TChoice(p1, p2) => EmitChoice(g, p1, p2, t, opt, fl, d);
      case TRep(p) => EmitRep(g, p, t, opt, fl, d);
      case TBehind(n, p) => EmitBehind(g, n, p, t, d);
      case TNot(p) => EmitNot(g, p, t, d);
      case TAnd(p) => EmitAnd(g, p, t, tt, d);
      case TSeq(p1, p2) => EmitSeq(g, p1, p2, t, opt, tt, fl, d);
      case TCall(r) => var _ := AddOffsetInst(IOpenCall(r));
      case TGrammar(rs) => EmitGrammar(rs, t, d);
    }

    /** `codebehind` */
    method EmitBehind(g: Grammar, n: nat, p: Tree, ghost t: Tree, d: nat)
      requires p < t
      modifies this
      ensures code == old(code) + GenBehind(g, n, p, t, d)
      decreases t, 8
    {
      if n > 0 { var _ := AddInstruction(IBehind(n)); }
      Codegen(g, p, false, NOINST, FULL, d);
      Assoc3(old(code), if n > 0 then [IBehind(n)] else [], Gen(g, p, false, NoGuard, FULL, d));
    }

    /** `codeseq1`, and the second child */
    method EmitSeq(g: Grammar, p1: Tree, p2: Tree, ghost t: Tree, opt: bool, tt: int, fl: Charset, d: nat)
      requires p1 < t && p2 < t && tt < |code|
      modifies this
      ensures code == old(code) + GenSeq(g, p1, p2, t, opt, GuardAt(old(code), tt), fl, d)
      decreases t, 8
    {
      ghost var pre := code;
      var fl1 := if NeedFollow(p1) then GetFirst(g, p2, fl, d).cs else FULL;
      Codegen(g, p1, false, tt, fl1, d);
      ghost var c1 := Gen(g, p1, false, GuardAt(pre, tt), fl1, d);
      GuardPrefix(pre, c1, tt);
      var tt2 := if FixedLen(g, p1, d) != 0 then NOINST else tt;
      Codegen(g, p2, opt, tt2, fl, d);
      Assoc3(pre, c1, Gen(g, p2, opt, GuardAt(pre, tt2), fl, d));
    }

    /** `codenot` */
    method EmitNot(g: Grammar, p: Tree, ghost t: Tree, d: nat)
      requires p < t
      modifies this
      ensures code == old(code) + GenNot(g, p, t, d)
      decreases t, 8
    {
      ghost var pre := code;
      var fs := GetFirst(g, p, FULL, d);
      var test := EmitTest(fs);
      if HeadFail(g, p, d) {
        var _ := AddInstruction(IFail);
        PatchTestHere(pre, fs, [IFail], test);
        Assoc3(pre, Test(fs, 1), [IFail]);
      } else {
        EmitNotBody(g, p, t, d);
        ghost var c := Gen(g, p, false, NoGuard, FULL, d);
        ghost var x := [IChoice(3 + |c|), Ext];
        PatchTestHere(pre, fs, x + c + [IFailTwice], test);
        Assoc5(pre, Test(fs, 3 + |c|), x, c, [IFailTwice]);
      }
    }

    method EmitNotBody(g: Grammar, p: Tree, ghost t: Tree, d: nat)
      requires p < t
      modifies this
      ensures var c := Gen(g, p, false, NoGuard, FULL, d);
        code == old(code) + ([IChoice(3 + |c|), Ext] + c + [IFailTwice])
      decreases t, 6
    {
      ghost var pre := code;
      ghost var c := Gen(g, p, false, NoGuard, FULL, d);
      var choice := AddOffsetInst(IChoice(0));
      Codegen(g, p, false, NOINST, FULL, d);
      var _ := AddInstruction(IFailTwice);
      Assoc3(pre + [IChoice(0), Ext], c, [IFailTwice]);
      PatchHere(pre, IChoice(0), c + [IFailTwice], choice);
      Assoc4(pre, [IChoice(3 + |c|), Ext], c, [IFailTwice]);
      Assoc3(pre + [IChoice(3 + |c|), Ext], c, [IFailTwice]);
    }

    /** Let the instruction in front of `b` jump to the end of the code. */
    method PatchHere(ghost a: Insts, ghost inst: Inst, ghost b: Insts, at: int)
      requires HasLabel(inst) && code == a + [inst, Ext] + b && at == |a|
      modifies this
      ensures code == a + [SetOff(inst, 2 + |b|), Ext] + b
    {
      Patch(a, inst, b, 2 + |b|);
      JumpToHere(at);
    }

    /** Let the test jump to the end of the code written so far. */
    method PatchTestHere(ghost pre: Insts, fs: First, ghost b: Insts, test: int)
      requires code == pre + Test0(fs) + b && test == if fs.empty then NOINST else |pre|
      modifies this
      ensures code == pre + Test(fs, |b|) + b
    {
      if !fs.empty { PatchTest(pre, fs, b, |b|); }
      JumpToHere(test);
    }

    /** `codeand` */
    method EmitAnd(g: Grammar, p: Tree, ghost t: Tree, tt: int, d: nat)
      requires p < t && tt < |code|
      modifies this
      ensures code == old(code) + GenAnd(g, p, t, GuardAt(old(code), tt), d)
      decreases t, 8
    {
      ghost var pre := code;
      ghost var c := Gen(g, p, false, GuardAt(pre, tt), FULL, d);
      var n := FixedLen(g, p, d);
      if 0 <= n <= MAXBEHIND {
        Codegen(g, p, false, tt, FULL, d);
        if n > 0 { var _ := AddInstruction(IBehind(n)); }
        Assoc3(pre, c, if n > 0 then [IBehind(n)] else []);
      } else {
        EmitAndBack(g, p, t, tt, d);
      }
    }

    method EmitAndBack(g: Grammar, p: Tree, ghost t: Tree, tt: int, d: nat)
      requires p < t && tt < |code|
      modifies this
      ensures var c := Gen(g, p, false, GuardAt(old(code), tt), FULL, d);
        code == old(code) + ([IChoice(4 + |c|), Ext] + c + [IBackCommit(3), Ext, IFail])
      decreases t, 7
    {
      ghost var pre := code;
      ghost var c := Gen(g, p, false, GuardAt(pre, tt), FULL, d);
      var choice := AddOffsetInst(IChoice(0));
      GuardPrefix(pre, [IChoice(0), Ext], tt);
      Codegen(g, p, false, tt, FULL, d);
      var commit := AddOffsetInst(IBackCommit(0));
      Assoc3(pre + [IChoice(0), Ext], c, [IBackCommit(0), Ext]);
      PatchHere(pre, IChoice(0), c + [IBackCommit(0), Ext], choice);
      ghost var x := [IChoice(4 + |c|), Ext];
      Assoc3(pre + x, c, [IBackCommit(0), Ext]);
      var _ := AddInstruction(IFail);
      PatchHere(pre + x + c, IBackCommit(0), [IFail], commit);
      Assoc3(pre + x + c, [IBackCommit(3), Ext], [IFail]);
      Assoc4(pre, x, c, [IBackCommit(3), Ext] + [IFail]);
      assert [IBackCommit(3), Ext] + [IFail] == [IBackCommit(3), Ext, IFail];
    }

    /** `codechoice` */
    method EmitChoice(g: Grammar, p1: Tree, p2: Tree, ghost t: Tree, opt: bool, fl: Charset, d: nat)
      requires p1 < t && p2 < t
      modifies this
      ensures code == old(code) + GenChoice(g, p1, p2, t, opt, fl, d)
      decreases t, 8
    {
      ghost var pre := code;
      if TestDecides(g, p1, p2, fl, d) {
        EmitChoiceTest(g, p1, p2, t, opt, fl, d);
      } else if opt && p2.TTrue? {
        var commit := AddOffsetInst(IPartialCommit(0));
        Patch0(pre, IPartialCommit(0), 2);
        JumpToHere(commit);
        Codegen(g, p1, true, NOINST, FULL, d);
        Assoc3(pre, [IPartialCommit(2), Ext], Gen(g, p1, true, NoGuard, FULL, d));
      } else {
        EmitChoiceBack(g, p1, p2, t, opt, fl, d);
      }
    }

    method EmitChoiceTest(g: Grammar, p1: Tree, p2: Tree, ghost t: Tree, opt: bool, fl: Charset, d: nat)
      requires p1 < t && p2 < t && TestDecides(g, p1, p2, fl, d)
      modifies this
      ensures code == old(code) + GenChoice(g, p1, p2, t, opt, fl, d)
      decreases t, 7
    {
      ghost var pre := code;
      var fs := First(GetFirst(g, p1, FULL, d).cs, false);
      ghost var c1 := Gen(g, p1, false, TestGuard(fs), fl, d);
      ghost var c2 := Gen(g, p2, opt, NoGuard, fl, d);
      var test := EmitTest(fs);
      GuardTest0(pre, fs);
      Codegen(g, p1, false, test, fl, d);
      if p2.TTrue? {
        PatchTestHere(pre, fs, c1, test);
        Assoc3(pre, Test(fs, |c1|), c1);
        EmitRest(g, p2, t, opt, fl, d, pre, Test(fs, |c1|) + c1);
        assert Test(fs, |c1|) + c1 + [] == Test(fs, |c1|) + c1;
      } else {
        var jmp := AddOffsetInst(IJmp(0));
        Assoc4(pre, Test0(fs), c1, [IJmp(0), Ext]);
        PatchTestHere(pre, fs, c1 + [IJmp(0), Ext], test);
        ghost var test1 := Test(fs, |c1| + 2);
        Assoc4(pre, test1, c1, [IJmp(0), Ext]);
        Assoc3(pre, test1, c1);
        EmitChoiceTail(g, p2, t, opt, fl, d, pre, test1 + c1, IJmp(0), jmp);
      }
    }

    method EmitChoiceBack(g: Grammar, p1: Tree, p2: Tree, ghost t: Tree, opt: bool, fl: Charset, d: nat)
      requires p1 < t && p2 < t && !TestDecides(g, p1, p2, fl, d) && !(opt && p2.TTrue?)
      modifies this
      ensures code == old(code) + GenChoice(g, p1, p2, t, opt, fl, d)
      decreases t, 7
    {
      ghost var pre := code;
      var fs := GetFirst(g, p1, FULL, d);
      ghost var c1 := Gen(g, p1, p2.TTrue?, TestGuard(fs), FULL, d);
      ghost var c2 := Gen(g, p2, opt, NoGuard, fl, d);
      var test := EmitTest(fs);
      GuardTest0(pre, fs);
      var commit := EmitChoiceBody(g, p1, t, p2.TTrue?, test, d);
      ghost var x := [IChoice(4 + |c1|), Ext];
      PatchTestHere(pre, fs, x + c1 + [ICommit(0), Ext], test);
      ghost var test1 := Test(fs, 4 + |c1|);
      Assoc5(pre, test1, x, c1, [ICommit(0), Ext]);
      EmitChoiceTail(g, p2, t, opt, fl, d, pre, test1 + x + c1, ICommit(0), commit);
      Assoc3(test1 + x + c1, [ICommit(2 + |c2|), Ext], c2);
    }

    method EmitRest(g: Grammar, p2: Tree, ghost t: Tree, opt: bool, fl: Charset, d: nat, ghost pre: Insts,
        ghost front: Insts)
      requires p2 < t && code == pre + front
      modifies this
      ensures code == pre + (front + Gen(g, p2, opt, NoGuard, fl, d))
      decreases t, 6
    {
      Codegen(g, p2, opt, NOINST, fl, d);
      Assoc3(pre, front, Gen(g, p2, opt, NoGuard, fl, d));
    }

    /** The other alternative, and the jump over it. */
    method EmitChoiceTail(g: Grammar, p2: Tree, ghost t: Tree, opt: bool, fl: Charset, d: nat, ghost pre: Insts,
        ghost front: Insts, ghost inst: Inst, jump: int)
      requires p2 < t && HasLabel(inst) && code == pre + front + [inst, Ext] && jump == |pre + front|
      modifies this
      ensures var c2 := Gen(g, p2, opt, NoGuard, fl, d);
        code == pre + (front + [SetOff(inst, 2 + |c2|), Ext] + c2)
      decreases t, 6
    {
      ghost var c2 := Gen(g, p2, opt, NoGuard, fl, d);
      Codegen(g, p2, opt, NOINST, fl, d);
      PatchHere(pre + front, inst, c2, jump);
      Assoc4(pre, front, [SetOff(inst, 2 + |c2|), Ext], c2);
    }

    /** The guarded alternative up to its commit, whose offset is still open. */
    method EmitChoiceBody(g: Grammar, p1: Tree, ghost t: Tree, opt: bool, tt: int, d: nat) returns (commit: int)
      requires p1 < t && tt < |code|
      modifies this
      ensures var c := Gen(g, p1, opt, GuardAt(old(code), tt), FULL, d);
        code == old(code) + ([IChoice(4 + |c|), Ext] + c + [ICommit(0), Ext]) && commit == |old(code)| + 2 + |c|
      decreases t, 6
    {
      ghost var pre := code;
      ghost var c := Gen(g, p1, opt, GuardAt(pre, tt), FULL, d);
      var choice := AddOffsetInst(IChoice(0));
      GuardPrefix(pre, [IChoice(0), Ext], tt);
      Codegen(g, p1, opt, tt, FULL, d);
      commit := AddOffsetInst(ICommit(0));
      Assoc3(pre + [IChoice(0), Ext], c, [ICommit(0), Ext]);
      PatchHere(pre, IChoice(0), c + [ICommit(0), Ext], choice);
      Assoc4(pre, [IChoice(4 + |c|), Ext], c, [ICommit(0), Ext]);
      Assoc3(pre + [IChoice(4 + |c|), Ext], c, [ICommit(0), Ext]);
    }

    /** `coderep` */
    method EmitRep(g: Grammar, p: Tree, ghost t: Tree, opt: bool, fl: Charset, d: nat)
      requires p < t
      modifies this
      ensures code == old(code) + GenRep(g, p, t, opt, fl, d)
      decreases t, 8
    {
      if IsCharset(p) {
        EmitWide(ISpan(ToCharset(p)));
      } else {
        if RepDecides(g, p, fl, d) {
          EmitRepTest(g, p, t, opt, fl, d);
        } else {
          EmitRepLoop(g, p, t, opt, fl, d);
        }
      }
    }

    method EmitRepTest(g: Grammar, p: Tree, ghost t: Tree, opt: bool, fl: Charset, d: nat)
      requires p < t && !IsCharset(p) && RepDecides(g, p, fl, d)
      modifies this
      ensures code == old(code) + GenRep(g, p, t, opt, fl, d)
      decreases t, 7
    {
      var fs := First(GetFirst(g, p, FULL, d).cs, false);
      ghost var pre := code;
      ghost var c := Gen(g, p, false, TestGuard(fs), FULL, d);
      var test := EmitTest(fs);
      GuardTest0(pre, fs);
      Codegen(g, p, false, test, FULL, d);
      var jmp := AddOffsetInst(IJmp(0));
      Assoc4(pre, Test0(fs), c, [IJmp(0), Ext]);
      PatchTestHere(pre, fs, c + [IJmp(0), Ext], test);
      ghost var test1 := Test(fs, |c| + 2);
      Assoc4(pre, test1, c, [IJmp(0), Ext]);
      Patch0(pre + test1 + c, IJmp(0), 0 - TLen(fs) - |c|);
      JumpToThere(jmp, test);
      Assoc4(pre, test1, c, [IJmp(0 - TLen(fs) - |c|), Ext]);
    }

    method EmitRepLoop(g: Grammar, p: Tree, ghost t: Tree, opt: bool, fl: Charset, d: nat)
      requires p < t && !IsCharset(p) && !RepDecides(g, p, fl, d)
      modifies this
      ensures code == old(code) + GenRep(g, p, t, opt, fl, d)
      decreases t, 7, 1
    {
      EmitRepTried(g, p, t, opt, GetFirst(g, p, FULL, d), d);
    }

    method EmitRepTried(g: Grammar, p: Tree, ghost t: Tree, opt: bool, fs: First, d: nat)
      requires p < t
      modifies this
      ensures var c := Gen(g, p, false, NoGuard, FULL, d);
        code == old(code) + (Test(fs, 4 + |c|) + [if opt then IPartialCommit(2) else IChoice(4 + |c|), Ext] + c +
                             [IPartialCommit(0 - |c|), Ext])
      decreases t, 7, 0
    {
      ghost var pre := code;
      ghost var c := Gen(g, p, false, NoGuard, FULL, d);
      var test := EmitTest(fs);
      EmitRepBody(g, p, t, opt, d);
      ghost var x := [if opt then IPartialCommit(2) else IChoice(4 + |c|), Ext];
      ghost var again := [IPartialCommit(0 - |c|), Ext];
      ghost var body := x + c + again;
      assert |body| == 4 + |c|;
      PatchTestHere(pre, fs, body, test);
      Assoc5(pre, Test(fs, 4 + |c|), x, c, again);
    }

    method EmitRepBody(g: Grammar, p: Tree, ghost t: Tree, opt: bool, d: nat)
      requires p < t
      modifies this
      ensures var c := Gen(g, p, false, NoGuard, FULL, d);
        code == old(code) + ([if opt then IPartialCommit(2) else IChoice(4 + |c|), Ext] + c +
                             [IPartialCommit(0 - |c|), Ext])
      decreases t, 6
    {
      ghost var pre := code;
      ghost var c := Gen(g, p, false, NoGuard, FULL, d);
      var choice := NOINST;
      if opt {
        var first := AddOffsetInst(IPartialCommit(0));
        Patch0(pre, IPartialCommit(0), 2);
        JumpToHere(first);
      } else {
        choice := AddOffsetInst(IChoice(0));
      }
      ghost var x := [if opt then IPartialCommit(2) else IChoice(0), Ext];
      EmitRepTail(g, p, t, d, pre + x);
      ghost var again := [IPartialCommit(0 - |c|), Ext];
      if !opt { PatchHere(pre, IChoice(0), c + again, choice); }
      Assoc4(pre, [if opt then IPartialCommit(2) else IChoice(4 + |c|), Ext], c, again);
      Assoc3(pre + [if opt then IPartialCommit(2) else IChoice(4 + |c|), Ext], c, again);
    }

    /** The body and the commit that starts the next round. */
    method EmitRepTail(g: Grammar, p: Tree, ghost t: Tree, d: nat, ghost pre: Insts)
      requires p < t && code == pre
      modifies this
      ensures var c := Gen(g, p, false, NoGuard, FULL, d); code == pre + (c + [IPartialCommit(0 - |c|), Ext])
      decreases t, 5
    {
      ghost var c := Gen(g, p, false, NoGuard, FULL, d);
      var l2 := |code|;
      Codegen(g, p, false, NOINST, FULL, d);
      var commit := AddOffsetInst(IPartialCommit(0));
      Patch0(pre + c, IPartialCommit(0), 0 - |c|);
      JumpToThere(commit, l2);
      Assoc3(pre, c, [IPartialCommit(0 - |c|), Ext]);
    }

    /** `codegrammar` */
    method EmitGrammar(rs: Grammar, ghost t: Tree, d: nat)
      requires t == TGrammar(rs)
      modifies this
      ensures code == old(code) + CorrectCalls(RawGrammar(rs, GenRules(rs, rs, d)), Positions(rs, rs, 4, d), 0)
      decreases t, 8
    {
      ghost var pre := code;
      var base := |code|;
      var firstcall := AddOffsetInst(ICall(0));
      var jumptoend := AddOffsetInst(IJmp(0));
      Patch(pre, ICall(0), [IJmp(0), Ext], 4);
      JumpToHere(firstcall);
      ghost var head := code;
      var positions := EmitRules(rs, t, d, base);
      ghost var bodies := GenRules(rs, rs, d);
      Patch(pre + [ICall(4), Ext], IJmp(0), bodies, 2 + |bodies|);
      JumpToHere(jumptoend);
      ghost var jmp := [IJmp(2 + |bodies|), Ext];
      Assoc4(pre, [ICall(4), Ext], jmp, bodies);
      assert [ICall(4), Ext] + jmp == [ICall(4), Ext, IJmp(2 + |bodies|), Ext];
      CloseCalls(base, pre, RawGrammar(rs, bodies), positions, Positions(rs, rs, 4, d));
    }

    /** The loop of `codegrammar` over the rules; returns their addresses. */
    method EmitRules(rs: Grammar, ghost t: Tree, d: nat, base: nat) returns (positions: seq<int>)
      requires t == TGrammar(rs) && |code| == base + 4
      modifies this
      ensures code == old(code) + GenRules(rs, rs, d) && positions == Shift(base, Positions(rs, rs, 4, d))
      decreases t, 6
    {
      ghost var head := code;
      positions := [];
      assert head + [] == head;
      for k := 0 to |rs|
        invariant code == head + GenRules(rs, rs[..k], d)
        invariant positions == Shift(base, Positions(rs, rs[..k], 4, d))
      {
        positions := positions + [|code|];
        Codegen(rs, rs[k], false, NOINST, FULL, d);
        var _ := AddInstruction(IRet);
        RulesSnoc(rs, rs[..k], rs[k], d);
        PositionsSnoc(rs, rs[..k], rs[k], 4, d);
        assert rs[..k + 1] == rs[..k] + [rs[k]];
        Assoc4(head, GenRules(rs, rs[..k], d), Gen(rs, rs[k], false, NoGuard, FULL, d), [IRet]);
      }
      assert rs[..|rs|] == rs;
    }

    /** `correctcalls`, on the code of one grammar (which its jumps never leave). */
    method CloseCalls(base: nat, ghost pre: Insts, ghost raw: Insts, positions: seq<int>, ghost pos: seq<int>)
      requires code == pre + raw && base == |pre| && positions == Shift(base, pos)
      modifies this
      ensures code == pre + CorrectCalls(raw, pos, 0)
    {
      ghost var region := raw;
      for i := base to |code|
        invariant |code| == |old(code)| && |region| == |raw| && code == pre + region
        invariant CorrectCalls(region, pos, i - base) == CorrectCalls(raw, pos, 0)
      {
        assert code[i] == region[i - base];
        if code[i].IOpenCall? && code[i].rule < |positions| {
          var rule := code[i].rule;
          assert code[base..] == region;
          var inst := if LeadsToRet(code[base..], i - base + 2) then IJmp(positions[rule] - i)
            else ICall(positions[rule] - i);
          code := code[i := inst];
          region := region[i - base := inst];
        }
      }
    }
  }
}
