/** The interpreter of lpvm.c as the loop it is, and the whole way from a
    pattern to its answer: right rotation, code generation, jump threading and
    the run of the compiled program. */
module LpegMatch {
  import opened LpegTree
  import opened LpegVm
  import opened LpegCode
  import opened LpegCorrect
  import opened LpegCompile
  import opened LpegThread
  import opened LpegOptimize
  import Rewrite = LpegRewrite
  import Wf = LpegGrammar

  // ------------------------------------------------------------ interpreter

  /** An entry of the backtrack stack; a pending call has no position. */
  datatype Entry = Giveup | Choice(p: int, s: nat) | Call(p: int)

  /** Only the first entry gives up. */
  predicate ValidStack(stack: seq<Entry>)
  {
    |stack| > 0 && stack[0] == Giveup && forall k :: 0 < k < |stack| ==> stack[k] != Giveup
  }

  function Abs(stack: seq<Entry>): Stack
    decreases |stack|
  {
    if |stack| == 0 then Bottom
    else
      var rest := stack[..|stack| - 1];
      match stack[|stack| - 1]
      case Giveup => Bottom
      case Choice(p, s) => Back(p, s, Abs(rest))
      case Call(p) => RetTo(p, Abs(rest))
  }

  lemma {:induction false} AbsPush(stack: seq<Entry>, e: Entry)
    requires ValidStack(stack) && e != Giveup
    ensures ValidStack(stack + [e])
    ensures Abs(stack + [e]) == if e.Choice? then Back(e.p, e.s, Abs(stack)) else RetTo(e.p, Abs(stack))
  {
    assert (stack + [e])[..|stack|] == stack;
  }

  /** The `fail:` label: drop pending calls, resume the last choice. */
  method Backtrack(stack: seq<Entry>) returns (e: Entry, stack': seq<Entry>)
    requires ValidStack(stack)
    ensures !e.Call?
    ensures e.Giveup? ==> FailTo(Abs(stack)) == Done(Fail)
    ensures e.Choice? ==> ValidStack(stack') && FailTo(Abs(stack)) == Run(e.p, e.s, Abs(stack'))
  {
    e, stack' := stack[|stack| - 1], stack[..|stack| - 1];
    while e.Call?
      invariant e != Giveup ==> ValidStack(stack')
      invariant FailTo(Abs(stack)) ==
        match e case Giveup => Done(Fail) case Choice(p, s) => Run(p, s, Abs(stack'))
          case Call(_) => FailTo(Abs(stack'))
      decreases |stack'|
    {
      e, stack' := stack'[|stack'| - 1], stack'[..|stack'| - 1];
    }
  }

  method Span(cs: Charset, s: seq<Byte>, i: nat) returns (j: nat)
    requires i <= |s|
    ensures j == SpanEnd(cs, s, i)
  {
    j := i;
    while j < |s|
      invariant j <= |s| && SpanEnd(cs, s, j) == SpanEnd(cs, s, i)
    {
      if s[j] !in cs { break; }
      j := j + 1;
    }
  }

  /** A state on the way to an answer executes a proper instruction. */
  lemma {:induction false} OnTheWay(code: seq<Inst>, s: seq<Byte>, p: int, i: nat, stk: Stack, n: nat, r: Res)
    requires Steps(code, s, Run(p, i, stk), n) == Done(r)
    ensures n > 0 && 0 <= p < |code| && i <= |s|
    ensures var st := Exec(code[p], s, p, i, stk);
      st != Stuck && Steps(code, s, st, n - 1) == Done(r) && (st.Done? ==> st.r == r)
  {
    var st := Step(code, s, Run(p, i, stk));
    if !st.Run? { DoneStays(code, s, st, n - 1); }
  }

  /** The instructions that read the subject but leave the stack alone. */
  predicate Looks(inst: Inst)
  {
    inst.IAny? || inst.ITestAny? || inst.IChar? || inst.ITestChar? || inst.ISet? || inst.ITestSet? ||
    inst.IBehind? || inst.ISpan? || inst.IJmp?
  }

  method Look(inst: Inst, s: seq<Byte>, p0: int, i0: nat, ghost stk: Stack) returns (fail: bool, p: int, i: nat)
    requires i0 <= |s| && Looks(inst)
    ensures Exec(inst, s, p0, i0, stk) == if fail then FailTo(stk) else Run(p, i, stk)
  {
    p, i, fail := p0, i0, false;
    match inst {
      case IAny =>
        if i < |s| { p, i := p + 1, i + 1; } else { fail := true; }
      case ITestAny(off) =>
        p := p + if i < |s| then 2 else off;
      case IChar(c) =>
        if i < |s| && s[i] == c { p, i := p + 1, i + 1; } else { fail := true; }
      case ITestChar(c, off) =>
        p := p + if i < |s| && s[i] == c then 2 else off;
      case ISet(cs) =>
        if i < |s| && s[i] in cs { p, i := p + CHARSETINSTSIZE, i + 1; } else { fail := true; }
      case ITestSet(cs, off) =>
        p := p + if i < |s| && s[i] in cs then 1 + CHARSETINSTSIZE else off;
      case IBehind(n) =>
        if n > i { fail := true; } else { p, i := p + 1, i - n; }
      case ISpan(cs) =>
        i := Span(cs, s, i);
        p := p + CHARSETINSTSIZE;
      case IJmp(off) =>
        p := p + off;
    }
  }

  /** The instructions that push or pop; their assertions hold. */
  method Stacked(inst: Inst, s: seq<Byte>, p0: int, i0: nat, stack0: seq<Entry>)
    returns (fail: bool, p: int, i: nat, stack: seq<Entry>)
    requires i0 <= |s| && !Looks(inst) && inst != IEnd
    requires ValidStack(stack0) && Exec(inst, s, p0, i0, Abs(stack0)) != Stuck
    ensures ValidStack(stack)
    ensures Exec(inst, s, p0, i0, Abs(stack0)) == if fail then FailTo(Abs(stack)) else Run(p, i, Abs(stack))
  {
    p, i, stack, fail := p0, i0, stack0, false;
    var top := stack[|stack| - 1];
    match inst {
      case IRet =>
        p, stack := top.p, stack[..|stack| - 1];
      case IChoice(off) =>
        AbsPush(stack, Choice(p + off, i));
        stack := stack + [Choice(p + off, i)];
        p := p + 2;
      case ICall(off) =>
        AbsPush(stack, Call(p + 2));
        stack := stack + [Call(p + 2)];
        p := p + off;
      case ICommit(off) =>
        p, stack := p + off, stack[..|stack| - 1];
      case IPartialCommit(off) =>
        AbsPush(stack[..|stack| - 1], Choice(top.p, i));
        stack := stack[..|stack| - 1] + [Choice(top.p, i)];
        p := p + off;
      case IBackCommit(off) =>
        p, i, stack := p + off, top.s, stack[..|stack| - 1];
      case IFailTwice =>
        stack := stack[..|stack| - 1];
        fail := true;
      case IFail => fail := true;
      case _ => assert false;
    }
  }

  /** `match`; `n` bounds its iterations. */
  method Match(code: seq<Inst>, s: seq<Byte>, start: nat, ghost n: nat, ghost r0: Res) returns (r: Res)
    requires Steps(code, s, Run(0, start, Bottom), n) == Done(r0)
    ensures r == r0
  {
    var p, i, stack := 0, start, [Giveup];
    ghost var m := n;
    while true
      invariant ValidStack(stack) && Steps(code, s, Run(p, i, Abs(stack)), m) == Done(r0)
      decreases m
    {
      ghost var stk := Abs(stack);
      OnTheWay(code, s, p, i, stk, m, r0);
      m := m - 1;
      var fail := false;
      match code[p] {
        case IEnd => return Ok(i);
        case inst =>
          if Looks(inst) {
            fail, p, i := Look(inst, s, p, i, stk);
          } else {
            fail, p, i, stack := Stacked(inst, s, p, i, stack);
          }
      }
      if fail {
        var e, stack' := Backtrack(stack);
        if e.Giveup? { return Fail; }
        p, i, stack := e.p, e.s, stack';
      }
    }
  }

  // ------------------------------------------------------- the whole way

  /** Two trees alike in everything the compiler relies on. */
  ghost predicate SameFooting(g: Grammar, t: Tree, t': Tree, d: nat)
  {
    && FixedLen(g, t', d) == FixedLen(g, t, d)
    && (Closed(g, t, d) ==> Closed(g, t', d))
    && (Wf.CallFree(t) ==> Wf.CallFree(t'))
    && (Wf.SubsAccepted(t, d) ==> Wf.SubsAccepted(t', d))
  }

  lemma {:induction false} SeqFooting(g: Grammar, a: Tree, b: Tree, c: Tree, d: nat)
    ensures SameFooting(g, TSeq(TSeq(a, b), c), TSeq(a, TSeq(b, c)), d)
  {
    var ab, bc := TSeq(a, b), TSeq(b, c);
    assert Closed(g, ab, d) == (Closed(g, a, d) && Closed(g, b, d));
    assert Closed(g, bc, d) == (Closed(g, b, d) && Closed(g, c, d));
    assert Wf.CallFree(ab) == (Wf.CallFree(a) && Wf.CallFree(b));
    assert Wf.CallFree(bc) == (Wf.CallFree(b) && Wf.CallFree(c));
    assert Wf.SubsAccepted(ab, d) == (Wf.SubsAccepted(a, d) && Wf.SubsAccepted(b, d));
    assert Wf.SubsAccepted(bc, d) == (Wf.SubsAccepted(b, d) && Wf.SubsAccepted(c, d));
  }

  lemma {:induction false} ChoiceFooting(g: Grammar, a: Tree, b: Tree, c: Tree, d: nat)
    ensures SameFooting(g, TChoice(TChoice(a, b), c), TChoice(a, TChoice(b, c)), d)
  {
    var ab, bc := TChoice(a, b), TChoice(b, c);
    assert Closed(g, ab, d) == (Closed(g, a, d) && Closed(g, b, d));
    assert Closed(g, bc, d) == (Closed(g, b, d) && Closed(g, c, d));
    assert Wf.CallFree(ab) == (Wf.CallFree(a) && Wf.CallFree(b));
    assert Wf.CallFree(bc) == (Wf.CallFree(b) && Wf.CallFree(c));
    assert Wf.SubsAccepted(ab, d) == (Wf.SubsAccepted(a, d) && Wf.SubsAccepted(b, d));
    assert Wf.SubsAccepted(bc, d) == (Wf.SubsAccepted(b, d) && Wf.SubsAccepted(c, d));
  }

  /** Right rotation keeps what the compiler relies on. */
  lemma {:induction false} RotateKeeps(g: Grammar, t: Tree, d: nat)
    ensures SameFooting(g, t, Rewrite.Rotate(t), d)
    decreases if t.TSeq? || t.TChoice? then Wf.TSize(t.p1) else 0
  {
    if t.TSeq? && t.p1.TSeq? {
      var a, b, c := t.p1.p1, t.p1.p2, t.p2;
      assert Wf.TSize(t.p1) == 1 + Wf.TSize(a) + Wf.TSize(b);
      RotateKeeps(g, TSeq(a, TSeq(b, c)), d);
      SeqFooting(g, a, b, c, d);
    } else if t.TChoice? && t.p1.TChoice? {
      var a, b, c := t.p1.p1, t.p1.p2, t.p2;
      assert Wf.TSize(t.p1) == 1 + Wf.TSize(a) + Wf.TSize(b);
      RotateKeeps(g, TChoice(a, TChoice(b, c)), d);
      ChoiceFooting(g, a, b, c, d);
    }
  }

  lemma {:induction false} FixKeeps(g: Grammar, t: Tree, d: nat)
    ensures SameFooting(g, t, Rewrite.FinalFix(t), d)
    decreases Wf.TSize(t), t
  {
    RotateKeeps(g, t, d);
    match Rewrite.Rotate(t)
    case TSeq(a, b) => FixKeeps(g, a, d); FixKeeps(g, b, d);
    case TChoice(a, b) => FixKeeps(g, a, d); FixKeeps(g, b, d);
    case TRep(p) => FixKeeps(g, p, d);
    case TNot(p) => FixKeeps(g, p, d);
    case TAnd(p) => FixKeeps(g, p, d);
    case TBehind(_, p) => FixKeeps(g, p, d);
    case _ =>
  }

  /** A fixed pattern means what the pattern means. */
  lemma {:induction false} FixedAnswers(t: Tree, d: nat, s: seq<Byte>, i: nat) returns (r: Res)
    requires Closed([], t, d) && Wf.WellFormed(t, d) && i <= |s|
    ensures Matches([], t, s, i, r) && Matches([], Rewrite.FinalFix(t), s, i, r)
    ensures Closed([], Rewrite.FinalFix(t), d) && Threadable(Compile(Rewrite.FinalFix(t), d))
  {
    r := Wf.WellFormedAnswers(t, d, s, i);
    Rewrite.FinalFixMeaning([], t, s, i, r);
    assert Rewrite.FixEnv([]) == [];
    FixKeeps([], t, d);
    CompiledThreadable(Rewrite.FinalFix(t), d);
  }

  /** `compile` */
  method CompilePattern(t: Tree, d: nat) returns (code: array<Inst>)
    requires Threadable(Compile(t, d))
    ensures fresh(code) && Refines(Compile(t, d), code[..])
  {
    var compst := new CompileState();
    compst.Codegen([], t, false, NOINST, FULL, d);
    var _ := compst.AddInstruction(IEnd);
    var insts := compst.code;
    assert insts == Compile(t, d);
    code := new Inst[|insts|](k requires 0 <= k < |insts| => insts[k]);
    assert code[..] == insts;
    Peephole(code);
  }

  /** A pattern, prepared, compiled and run, answers what it means: on every
      subject and from every position, with every optimisation. */
  method PatternMatch(t: Tree, d: nat, s: seq<Byte>, i: nat) returns (r: Res)
    requires Closed([], t, d) && Wf.WellFormed(t, d) && i <= |s|
    ensures Matches([], t, s, i, r)
  {
    var fixed := Rewrite.FinalFix(t);
    ghost var r0 := FixedAnswers(t, d, s, i);
    var code := CompilePattern(fixed, d);
    CompileCorrect(fixed, d, s, i, r0);
    ghost var n: nat :| Steps(code[..], s, Run(0, i, Bottom), n) == Done(r0);
    r := Match(code[..], s, i, n, r0);
  }
}
