/** Code generation of lpcode.c as a function from trees to code.  Offsets are
    relative, so the code of a tree does not depend on where it is placed.
    `opt` says that the code ends an optional pattern whose choice entry may be
    reused, `tt` is the test known to have succeeded just before, and `fl` is
    the set of characters the continuation can start with. */
module LpegCode {
  import opened LpegTree
  import opened LpegVm

  /** What `charsettype` tells about a set. */
  datatype Kind = KFail | KChar(c: Byte) | KAny | KSet

  function CharsetType(cs: Charset): (k: Kind)
    ensures k.KChar? ==> cs == {k.c}
  {
    if cs == {} then KFail
    else if |cs| == 1 then KChar(Only(cs))
    else if cs == FULL then KAny
    else KSet
  }

  /** The member of a singleton. */
  function Only(cs: Charset): (c: Byte)
    requires |cs| == 1
    ensures cs == {c}
  {
    assert forall c, c' :: c in cs && c' in cs ==> c == c' by {
      forall c, c' | c in cs && c' in cs ensures c == c' {
        assert c != c' ==> |cs - {c, c'}| == |cs| - 2;
      }
    }
    var c :| c in cs;
    assert cs == {c};
    c
  }

  /** The dominating test, as far as `codechar` and `codecharset` use it. */
  datatype Guard = NoGuard | GChar(c: Byte) | GSet(cs: Charset)

  function Exts(n: nat): (e: seq<Inst>)
    ensures |e| == n
  {
    seq(n, _ => Ext)
  }

  function CodeChar(c: Byte, tt: Guard): seq<Inst>
  {
    if tt == GChar(c) then [IAny] else [IChar(c)]
  }

  function CodeCharset(cs: Charset, tt: Guard): seq<Inst>
  {
    match CharsetType(cs)
    case KFail => [IFail]
    case KAny => [IAny]
    case KChar(c) => CodeChar(c, tt)
    case KSet => if tt == GSet(cs) then [IAny] else [ISet(cs)] + Exts(CHARSETINSTSIZE - 1)
  }

  function TestInst(cs: Charset, off: int): Inst
  {
    match CharsetType(cs)
    case KFail => IJmp(off)
    case KAny => ITestAny(off)
    case KChar(c) => ITestChar(c, off)
    case KSet => ITestSet(cs, off)
  }

  function TestLen(cs: Charset): nat { Size(TestInst(cs, 0)) }

  /** `codetestset` for a set that does not accept the empty string. */
  function TestCode(cs: Charset, off: int): (c: seq<Inst>)
    ensures |c| == TestLen(cs) && c[0] == TestInst(cs, off)
  {
    [TestInst(cs, off)] + Exts(TestLen(cs) - 1)
  }

  function GuardOf(cs: Charset): Guard
  {
    match CharsetType(cs)
    case KChar(c) => GChar(c)
    case KSet => GSet(cs)
    case _ => NoGuard
  }

  /** Code that skips `skip` slots when the pattern cannot match here; there
      is none when the pattern accepts the empty string. */
  function Test(fs: First, skip: nat): (c: seq<Inst>)
    ensures |c| == TLen(fs)
  {
    if fs.empty then [] else TestCode(fs.cs, TestLen(fs.cs) + skip)
  }

  function TLen(fs: First): nat
  {
    if fs.empty then 0 else TestLen(fs.cs)
  }

  function TestGuard(fs: First): Guard
  {
    if fs.empty then NoGuard else GuardOf(fs.cs)
  }

  /** `finaltarget`: follow jumps, at most `n` of them. */
  function FinalTarget(code: seq<Inst>, i: int, n: nat): int
    decreases n
  {
    if n > 0 && 0 <= i < |code| && code[i].IJmp? then FinalTarget(code, i + code[i].off, n - 1) else i
  }

  predicate LeadsToRet(code: seq<Inst>, i: int)
  {
    var ft := FinalTarget(code, i, |code|);
    0 <= ft < |code| && code[ft] == IRet
  }

  /** `correctcalls`: close the open calls from slot `i` on; a call followed by
      a return becomes a jump. */
  function CorrectCalls(code: seq<Inst>, pos: seq<int>, i: nat): seq<Inst>
    decreases |code| - i
  {
    if i >= |code| then code
    else if code[i].IOpenCall? && code[i].rule < |pos| then
      var off := pos[code[i].rule] - i;
      var inst := if LeadsToRet(code, i + 2) then IJmp(off) else ICall(off);
      CorrectCalls(code[i := inst], pos, i + 1)
    else CorrectCalls(code, pos, i + 1)
  }

  /** Condition under which a test alone decides between `p1` and `p2`. */
  predicate TestDecides(g: Grammar, p1: Tree, p2: Tree, fl: Charset, d: nat)
  {
    HeadFail(g, p1, d) ||
    var f1 := GetFirst(g, p1, FULL, d);
    !f1.empty && f1.cs !! GetFirst(g, p2, fl, d).cs
  }

  /** Condition under which a test alone decides to leave a repetition. */
  predicate RepDecides(g: Grammar, p: Tree, fl: Charset, d: nat)
  {
    HeadFail(g, p, d) ||
    var f1 := GetFirst(g, p, FULL, d);
    !f1.empty && f1.cs !! fl
  }

  /** `codegen` */
  function Gen(g: Grammar, t: Tree, opt: bool, tt: Guard, fl: Charset, d: nat): seq<Inst>
    decreases t, 1, g
  {
    match t
    case TChar(c) => CodeChar(c, tt)
    case TAny => [IAny]
    case TSet(cs) => CodeCharset(cs, tt)
    case TTrue => []
    case TFalse => [IFail]
    case TChoice(p1, p2) => GenChoice(g, p1, p2, t, opt, fl, d)
    case TRep(p) => GenRep(g, p, t, opt, fl, d)
    case TBehind(n, p) => GenBehind(g, n, p, t, d)
    case TNot(p) => GenNot(g, p, t, d)
    case TAnd(p) => GenAnd(g, p, t, tt, d)
    case TSeq(p1, p2) => GenSeq(g, p1, p2, t, opt, tt, fl, d)
    case TCall(r) => [IOpenCall(r), Ext]
    case TGrammar(rs) =>
      CorrectCalls(RawGrammar(rs, GenRules(rs, rs, d)), Positions(rs, rs, 4, d), 0)
  }

  /** `codebehind` */
  function GenBehind(g: Grammar, n: nat, p: Tree, ghost t: Tree, d: nat): seq<Inst>
    requires p < t
    decreases t, 0, g
  {
    (if n > 0 then [IBehind(n)] else []) + Gen(g, p, false, NoGuard, FULL, d)
  }

  /** `codenot` */
  function GenNot(g: Grammar, p: Tree, ghost t: Tree, d: nat): seq<Inst>
    requires p < t
    decreases t, 0, g
  {
    var f1 := GetFirst(g, p, FULL, d);
    if HeadFail(g, p, d) then Test(f1, 1) + [IFail]
    else
      var c := Gen(g, p, false, NoGuard, FULL, d);
      Test(f1, 3 + |c|) + [IChoice(3 + |c|), Ext] + c + [IFailTwice]
  }

  /** `codeand` */
  function GenAnd(g: Grammar, p: Tree, ghost t: Tree, tt: Guard, d: nat): seq<Inst>
    requires p < t
    decreases t, 0, g
  {
    var n := FixedLen(g, p, d);
    var c := Gen(g, p, false, tt, FULL, d);
    if 0 <= n <= MAXBEHIND then c + (if n > 0 then [IBehind(n)] else [])
    else [IChoice(4 + |c|), Ext] + c + [IBackCommit(3), Ext, IFail]
  }

  /** `codeseq1` and the second child of a sequence */
  function GenSeq(g: Grammar, p1: Tree, p2: Tree, ghost t: Tree, opt: bool, tt: Guard, fl: Charset, d: nat): seq<Inst>
    requires p1 < t && p2 < t
    decreases t, 0, g
  {
    var fl1 := if NeedFollow(p1) then GetFirst(g, p2, fl, d).cs else FULL;
    Gen(g, p1, false, tt, fl1, d) +
    Gen(g, p2, opt, if FixedLen(g, p1, d) != 0 then NoGuard else tt, fl, d)
  }

  /** `codechoice` */
  function GenChoice(g: Grammar, p1: Tree, p2: Tree, ghost t: Tree, opt: bool, fl: Charset, d: nat): seq<Inst>
    requires p1 < t && p2 < t
    decreases t, 0, g
  {
    var f1 := GetFirst(g, p1, FULL, d);
    var c2 := Gen(g, p2, opt, NoGuard, fl, d);
    if TestDecides(g, p1, p2, fl, d) then
      var fs := First(f1.cs, false);
      var c1 := Gen(g, p1, false, TestGuard(fs), fl, d);
      var jmp := if p2.TTrue? then [] else [IJmp(2 + |c2|), Ext];
      Test(fs, |c1| + |jmp|) + c1 + jmp + c2
    else if opt && p2.TTrue? then
      [IPartialCommit(2), Ext] + Gen(g, p1, true, NoGuard, FULL, d)
    else
      var c1 := Gen(g, p1, p2.TTrue?, TestGuard(f1), FULL, d);
      Test(f1, 4 + |c1|) + [IChoice(4 + |c1|), Ext] + c1 + [ICommit(2 + |c2|), Ext] + c2
  }

  /** `coderep` */
  function GenRep(g: Grammar, p: Tree, ghost t: Tree, opt: bool, fl: Charset, d: nat): seq<Inst>
    requires p < t
    decreases t, 0, g
  {
    if IsCharset(p) then [ISpan(ToCharset(p))] + Exts(CHARSETINSTSIZE - 1)
    else
      var f1 := GetFirst(g, p, FULL, d);
      if RepDecides(g, p, fl, d) then
        var fs := First(f1.cs, false);
        var c := Gen(g, p, false, TestGuard(fs), FULL, d);
        Test(fs, |c| + 2) + c + [IJmp(0 - TLen(fs) - |c|), Ext]
      else
        var c := Gen(g, p, false, NoGuard, FULL, d);
        Test(f1, 4 + |c|) + [if opt then IPartialCommit(2) else IChoice(4 + |c|), Ext] + c +
        [IPartialCommit(0 - |c|), Ext]
  }

  /** `codegrammar`: call the initial rule, jump over the rules, the rules. */
  function RawGrammar(rs: Grammar, bodies: seq<Inst>): seq<Inst>
  {
    [ICall(4), Ext, IJmp(2 + |bodies|), Ext] + bodies
  }

  function GenRules(g: Grammar, rest: Grammar, d: nat): seq<Inst>
    decreases rest, 0
  {
    if rest == [] then [] else Gen(g, rest[0], false, NoGuard, FULL, d) + [IRet] + GenRules(g, rest[1..], d)
  }

  function Positions(g: Grammar, rest: Grammar, start: int, d: nat): (ps: seq<int>)
    ensures |ps| == |rest|
    decreases rest, 0
  {
    if rest == [] then []
    else [start] + Positions(g, rest[1..], start + |Gen(g, rest[0], false, NoGuard, FULL, d)| + 1, d)
  }

  /** `compile`, before `peephole`. */
  function Compile(t: Tree, d: nat): seq<Inst>
  {
    Gen([], t, false, NoGuard, FULL, d) + [IEnd]
  }
}
