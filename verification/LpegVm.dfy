/** The LPeg virtual machine: instructions, one-step semantics of the opcode
    interpreter of lpvm.c, and `Yields`, the eventual answer of a state. */
module LpegVm {
  import opened LpegTree

  /** One slot of code.  An instruction keeps its operands in its first slot
      and is followed by `Ext` slots up to its size in slots. */
  datatype Inst =
    | IAny
    | IChar(c: Byte)
    | ISet(cs: Charset)
    | ITestAny(off: int)
    | ITestChar(c: Byte, off: int)
    | ITestSet(cs: Charset, off: int)
    | ISpan(cs: Charset)
    | IBehind(n: nat)
    | IRet
    | IEnd
    | IChoice(off: int)
    | IJmp(off: int)
    | ICall(off: int)
    | IOpenCall(rule: nat)
    | ICommit(off: int)
    | IPartialCommit(off: int)
    | IBackCommit(off: int)
    | IFailTwice
    | IFail
    | Ext

  const CHARSETINSTSIZE: nat := 9

  /** `sizei` */
  function Size(i: Inst): nat
  {
    match i
    case ISet(_) => CHARSETINSTSIZE
    case ISpan(_) => CHARSETINSTSIZE
    case ITestSet(_, _) => CHARSETINSTSIZE + 1
    case ITestAny(_) => 2
    case ITestChar(_, _) => 2
    case IChoice(_) => 2
    case IJmp(_) => 2
    case ICall(_) => 2
    case IOpenCall(_) => 2
    case ICommit(_) => 2
    case IPartialCommit(_) => 2
    case IBackCommit(_) => 2
    case _ => 1
  }

  /** The backtrack stack; `Bottom` is the initial entry that gives up. */
  datatype Stack = Bottom | Back(p: int, s: nat, rest: Stack) | RetTo(p: int, rest: Stack)

  /** `Stuck` stands for a violated assertion of the interpreter. */
  datatype State = Run(p: int, i: nat, stk: Stack) | Done(r: Res) | Stuck

  /** The `fail:` label: drop pending calls and resume the last choice. */
  function FailTo(stk: Stack): State
  {
    match stk
    case Bottom => Done(Fail)
    case Back(p, s, rest) => Run(p, s, rest)
    case RetTo(_, rest) => FailTo(rest)
  }

  /** Length of the longest run of characters of `cs` from `i`. */
  function SpanEnd(cs: Charset, s: seq<Byte>, i: nat): (j: nat)
    requires i <= |s|
    ensures i <= j <= |s|
    decreases |s| - i
  {
    if i < |s| && s[i] in cs then SpanEnd(cs, s, i + 1) else i
  }

  /** What one instruction, found at address `p`, does. */
  function Exec(inst: Inst, s: seq<Byte>, p: int, i: nat, stk: Stack): State
    requires i <= |s|
  {
    match inst
    case IAny => if i < |s| then Run(p + 1, i + 1, stk) else FailTo(stk)
    case IChar(c) => if i < |s| && s[i] == c then Run(p + 1, i + 1, stk) else FailTo(stk)
    case ISet(cs) => if i < |s| && s[i] in cs then Run(p + CHARSETINSTSIZE, i + 1, stk) else FailTo(stk)
    case ITestAny(off) => if i < |s| then Run(p + 2, i, stk) else Run(p + off, i, stk)
    case ITestChar(c, off) => if i < |s| && s[i] == c then Run(p + 2, i, stk) else Run(p + off, i, stk)
    case ITestSet(cs, off) =>
      if i < |s| && s[i] in cs then Run(p + 1 + CHARSETINSTSIZE, i, stk) else Run(p + off, i, stk)
    case ISpan(cs) => Run(p + CHARSETINSTSIZE, SpanEnd(cs, s, i), stk)
    case IBehind(n) => if n > i then FailTo(stk) else Run(p + 1, i - n, stk)
    case IRet => if stk.RetTo? then Run(stk.p, i, stk.rest) else Stuck
    case IEnd => if stk.Bottom? then Done(Ok(i)) else Stuck
    case IChoice(off) => Run(p + 2, i, Back(p + off, i, stk))
    case IJmp(off) => Run(p + off, i, stk)
    case ICall(off) => Run(p + off, i, RetTo(p + 2, stk))
    case IOpenCall(_) => Stuck
    case ICommit(off) => if stk.Back? then Run(p + off, i, stk.rest) else Stuck
    case IPartialCommit(off) => if stk.Back? then Run(p + off, i, Back(stk.p, i, stk.rest)) else Stuck
    case IBackCommit(off) => if stk.Back? then Run(p + off, stk.s, stk.rest) else Stuck
    case IFailTwice => if stk.Bottom? then Stuck else FailTo(stk.rest)
    case IFail => FailTo(stk)
    case Ext => Stuck
  }

  /** One iteration of the loop of `match`. */
  function Step(code: seq<Inst>, s: seq<Byte>, st: State): State
  {
    if !st.Run? then st
    else if !(0 <= st.p < |code|) || st.i > |s| then Stuck
    else Exec(code[st.p], s, st.p, st.i, st.stk)
  }

  function Steps(code: seq<Inst>, s: seq<Byte>, st: State, n: nat): State
    decreases n
  {
    if n == 0 then st else Steps(code, s, Step(code, s, st), n - 1)
  }

  /** The machine started in `st` eventually stops with answer `r`. */
  ghost predicate Yields(code: seq<Inst>, s: seq<Byte>, st: State, r: Res)
  {
    exists n: nat :: Steps(code, s, st, n) == Done(r)
  }

  lemma {:induction false} DoneStays(code: seq<Inst>, s: seq<Byte>, st: State, n: nat)
    requires !st.Run?
    ensures Steps(code, s, st, n) == st
  {
    if n > 0 { DoneStays(code, s, st, n - 1); }
  }

  /** Taking a step does not change the eventual answer. */
  lemma YieldsStep(code: seq<Inst>, s: seq<Byte>, st: State, r: Res)
    ensures Yields(code, s, st, r) <==> Yields(code, s, Step(code, s, st), r)
  {
    if Yields(code, s, Step(code, s, st), r) {
      var n: nat :| Steps(code, s, Step(code, s, st), n) == Done(r);
      assert Steps(code, s, st, n + 1) == Done(r);
    }
    if Yields(code, s, st, r) {
      var n: nat :| Steps(code, s, st, n) == Done(r);
      if n == 0 {
        assert Steps(code, s, Step(code, s, st), 0) == Done(r);
      } else {
        assert Steps(code, s, Step(code, s, st), n - 1) == Done(r);
      }
    }
  }

  /** The machine is deterministic, so its answer is unique. */
  lemma {:induction false} YieldsUnique(code: seq<Inst>, s: seq<Byte>, st: State, r: Res, r': Res)
    requires Yields(code, s, st, r) && Yields(code, s, st, r')
    ensures r == r'
  {
    var n: nat :| Steps(code, s, st, n) == Done(r);
    var n': nat :| Steps(code, s, st, n') == Done(r');
    if n <= n' { StepsSplit(code, s, st, n, n'); DoneStays(code, s, Done(r), n' - n); }
    else { StepsSplit(code, s, st, n', n); DoneStays(code, s, Done(r'), n - n'); }
  }

  lemma {:induction false} StepsSplit(code: seq<Inst>, s: seq<Byte>, st: State, n: nat, m: nat)
    requires n <= m
    ensures Steps(code, s, st, m) == Steps(code, s, Steps(code, s, st, n), m - n)
    decreases n
  {
    if n > 0 { StepsSplit(code, s, Step(code, s, st), n - 1, m - 1); }
  }
}
