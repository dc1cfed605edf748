/** Jump threading (`peephole` of lpcode.c) keeps the answers of a program. */
module LpegPeephole {
  import opened LpegTree
  import opened LpegVm
  import opened LpegCode

  /** Following jumps from `k` one passes through `k'`. */
  ghost predicate Leads(code: seq<Inst>, k: int, k': int)
  {
    exists m: nat :: FinalTarget(code, k, m) == k'
  }

  lemma LeadsFinal(code: seq<Inst>, k: int)
    ensures Leads(code, k, FinalTarget(code, k, |code|))
  {
  }

  lemma LeadsSelf(code: seq<Inst>, k: int)
    ensures Leads(code, k, k)
  {
    assert FinalTarget(code, k, 0) == k;
  }

  /** Either there already, or one jump nearer. */
  lemma LeadsNext(code: seq<Inst>, k: int, k': int)
    requires Leads(code, k, k')
    ensures k == k' || (0 <= k < |code| && code[k].IJmp? && Leads(code, k + code[k].off, k'))
  {
    var m: nat :| FinalTarget(code, k, m) == k';
    if k != k' { assert FinalTarget(code, k + code[k].off, m - 1) == k'; }
  }

  /** Stacks and states that differ only by jumps still to be followed. */
  ghost predicate StackRel(code: seq<Inst>, a: Stack, b: Stack)
    decreases a
  {
    match a
    case Bottom => b.Bottom?
    case Back(p, s, rest) => b.Back? && b.s == s && Leads(code, p, b.p) && StackRel(code, rest, b.rest)
    case RetTo(p, rest) => b.RetTo? && Leads(code, p, b.p) && StackRel(code, rest, b.rest)
  }

  ghost predicate StateRel(code: seq<Inst>, a: State, b: State)
  {
    match a
    case Run(p, i, stk) => b.Run? && b.i == i && Leads(code, p, b.p) && StackRel(code, stk, b.stk)
    case Done(_) => b == a
    case Stuck => true
  }

  lemma {:induction false} FailRel(code: seq<Inst>, a: Stack, b: Stack)
    requires StackRel(code, a, b)
    ensures StateRel(code, FailTo(a), FailTo(b))
    decreases a
  {
    if a.RetTo? { FailRel(code, a.rest, b.rest); }
  }

  lemma {:induction false} StackSelf(code: seq<Inst>, a: Stack)
    ensures StackRel(code, a, a)
    decreases a
  {
    if !a.Bottom? {
      LeadsSelf(code, a.p);
      StackSelf(code, a.rest);
    }
  }

  predicate HasLabel(inst: Inst)
  {
    inst.ITestAny? || inst.ITestChar? || inst.ITestSet? || inst.IChoice? || inst.IJmp? || inst.ICall? ||
    inst.ICommit? || inst.IPartialCommit? || inst.IBackCommit?
  }

  /** `setoffset` */
  function SetOff(inst: Inst, off: int): (r: Inst)
    requires HasLabel(inst)
    ensures HasLabel(r) && r.off == off && Size(r) == Size(inst)
  {
    match inst
    case ITestAny(_) => ITestAny(off)
    case ITestChar(c, _) => ITestChar(c, off)
    case ITestSet(cs, _) => ITestSet(cs, off)
    case IChoice(_) => IChoice(off)
    case IJmp(_) => IJmp(off)
    case ICall(_) => ICall(off)
    case ICommit(_) => ICommit(off)
    case IPartialCommit(_) => IPartialCommit(off)
    case IBackCommit(_) => IBackCommit(off)
  }

  predicate NoNext(inst: Inst)
  {
    inst.IJmp? || inst.ICommit? || inst.IPartialCommit? || inst.IBackCommit? ||
    inst.IRet? || inst.IFail? || inst.IFailTwice? || inst.IEnd?
  }

  /** Instructions that do the same, up to jumps, at addresses `p` and `p'`. */
  ghost predicate Alike(code: seq<Inst>, inst: Inst, p: int, inst': Inst, p': int)
  {
    && (p == p' || NoNext(inst))
    && if HasLabel(inst) then
         HasLabel(inst') && inst' == SetOff(inst, inst'.off) && Leads(code, p + inst.off, p' + inst'.off)
       else inst' == inst
  }

  lemma {:induction false} ExecRel(code: seq<Inst>, inst: Inst, p: int, inst': Inst, p': int, s: seq<Byte>, i: nat,
      a: Stack, b: Stack)
    requires i <= |s| && StackRel(code, a, b) && Alike(code, inst, p, inst', p')
    ensures StateRel(code, Exec(inst, s, p, i, a), Exec(inst', s, p', i, b))
  {
    FailRel(code, a, b);
    if inst.IFailTwice? && !a.Bottom? { FailRel(code, a.rest, b.rest); }
    LeadsSelf(code, p + 1);
    LeadsSelf(code, p + 2);
    LeadsSelf(code, p + CHARSETINSTSIZE);
    LeadsSelf(code, p + 1 + CHARSETINSTSIZE);
  }

  /** One rewrite of `peephole` at slot `i`: the instruction there becomes one
      that does the same, or a jump becomes a copy `inst` of what it leads to
      (and the slot after it, no longer used, becomes a no-op). */
  ghost predicate Threaded(code: seq<Inst>, code': seq<Inst>, i: int)
  {
    && |code'| == |code| && 0 <= i < |code|
    && (forall k :: 0 <= k < |code| && k != i && k != i + 1 ==> code'[k] == code[k])
    && (i + 1 < |code| ==> code'[i + 1] == code[i + 1] || code[i + 1] == Ext)
    && (|| Alike(code, code[i], i, code'[i], i)
        || (code[i].IJmp? && exists ft :: Leads(code, i, ft) && CopyOf(code, ft, code'[i], i)))
  }

  ghost predicate CopyOf(code: seq<Inst>, ft: int, inst: Inst, i: int)
  {
    0 <= ft < |code| && !code[ft].IJmp? && NoNext(code[ft]) && Alike(code, code[ft], ft, inst, i)
  }

  /** A jump's run passes through every place the jump leads to. */
  lemma {:induction false} RunThrough(code: seq<Inst>, s: seq<Byte>, k: int, ft: int, j: nat, stk: Stack, n: nat,
      r: Res) returns (n': nat)
    requires j <= |s| && Leads(code, k, ft) && Steps(code, s, Run(k, j, stk), n) == Done(r)
    ensures n' <= n && Steps(code, s, Run(ft, j, stk), n') == Done(r)
    decreases n
  {
    LeadsNext(code, k, ft);
    if k == ft { n' := n; }
    else { n' := RunThrough(code, s, k + code[k].off, ft, j, stk, n - 1, r); }
  }

  /** Whatever the program answers, the threaded program answers too. */
  lemma {:induction false} ThreadedAnswers(code: seq<Inst>, code': seq<Inst>, x: int, s: seq<Byte>, a: State, b: State,
      n: nat, r: Res)
    requires Threaded(code, code', x) && StateRel(code, a, b) && Steps(code, s, a, n) == Done(r)
    ensures Yields(code', s, b, r)
    decreases n
  {
    match a
    case Done(_) => DoneStays(code, s, a, n); assert Steps(code', s, b, 0) == Done(r);
    case Stuck => DoneStays(code, s, a, n);
    case Run(p, i, stk) =>
      LeadsNext(code, p, b.p);
      if !(0 <= p < |code|) || i > |s| {
        DoneStays(code, s, Stuck, n - 1);
      } else if p != b.p {
        ThreadedAnswers(code, code', x, s, Step(code, s, a), b, n - 1, r);
      } else {
        ThreadedStep(code, code', x, s, a, b, n, r);
      }
  }

  lemma {:induction false} ThreadedStep(code: seq<Inst>, code': seq<Inst>, x: int, s: seq<Byte>, a: State, b: State,
      n: nat, r: Res)
    requires Threaded(code, code', x) && StateRel(code, a, b) && Steps(code, s, a, n) == Done(r)
    requires a.Run? && a.p == b.p && 0 <= a.p < |code| && a.i <= |s| && n > 0
    ensures Yields(code', s, b, r)
    decreases n, 0
  {
    var Run(p, i, stk) := a;
    var inst := code[p];
    YieldsStep(code', s, b, r);
    if p == x && !Alike(code, inst, p, code'[p], p) {
      var ft :| Leads(code, x, ft) && CopyOf(code, ft, code'[x], x);
      var n' := RunThrough(code, s, x, ft, i, stk, n, r);
      ExecRel(code, code[ft], ft, code'[x], x, s, i, stk, b.stk);
      ThreadedAnswers(code, code', x, s, Step(code, s, Run(ft, i, stk)), Step(code', s, b), n' - 1, r);
    } else if code'[p] != inst && p != x {
      DoneStays(code, s, Stuck, n - 1);
    } else {
      if p != x && HasLabel(inst) { LeadsSelf(code, p + inst.off); }
      ExecRel(code, inst, p, code'[p], p, s, i, stk, b.stk);
      ThreadedAnswers(code, code', x, s, Step(code, s, a), Step(code', s, b), n - 1, r);
    }
  }
}
