/** `correctcalls` looks for a return behind every call in the code generated so
    far.  In the code of a grammar no chain of jumps leaves the rules, so that
    looking in the code of the grammar alone comes to the same. */
module LpegCalls {
  import opened LpegTree
  import opened LpegVm
  import opened LpegCode
  import opened LpegCorrect
  import opened LpegJumps
  import opened LpegThread

  /** Jumps of rules stay in the rules, and something follows every open call. */
  ghost predicate Inside(c: seq<Inst>)
  {
    forall k :: 4 <= k < |c| ==> JumpInside(c, k)
  }

  ghost predicate JumpInside(c: seq<Inst>, k: int)
    requires 0 <= k < |c|
  {
    (c[k].IJmp? ==> 4 <= k + c[k].off < |c|) && (c[k].IOpenCall? ==> k + 2 < |c|)
  }

  /** A chain of jumps from a rule stays in the rules, and is the same in the
      whole code. */
  lemma {:induction false} WholeTarget(pre: seq<Inst>, c: seq<Inst>, i: int, n: nat)
    requires Inside(c) && 4 <= i < |c|
    ensures 4 <= FinalTarget(c, i, n) < |c| && FinalTarget(pre + c, |pre| + i, n) == |pre| + FinalTarget(c, i, n)
    decreases n
  {
    assert JumpInside(c, i);
    if n > 0 && c[i].IJmp? { WholeTarget(pre, c, i + c[i].off, n - 1); }
  }

  lemma {:induction false} MoreJumps(c: seq<Inst>, i: int, n: nat, n': nat)
    requires n <= n' && EndsBy(c, i, n)
    ensures FinalTarget(c, i, n') == FinalTarget(c, i, n)
    decreases n
  {
    if 0 <= i < |c| && c[i].IJmp? && n > 0 { MoreJumps(c, i + c[i].off, n - 1, n' - 1); }
  }

  lemma {:induction false} WholeLeads(pre: seq<Inst>, c: seq<Inst>, i: int)
    requires Inside(c) && 4 <= i < |c|
    ensures LeadsToRet(pre + c, |pre| + i) <==> LeadsToRet(c, i)
  {
    var n, n' := |c|, |pre + c|;
    WholeTarget(pre, c, i, n');
    WholeTarget(pre, c, i, n);
    if EndsBy(c, i, n') { ShortChain(c, i, n', {}); }
    if EndsBy(c, i, n) { MoreJumps(c, i, n, n'); }
  }

  /** `correctcalls` on the code `pre + code`, from slot `i` of `code` on. */
  function CorrectWhole(pre: seq<Inst>, code: seq<Inst>, pos: seq<int>, i: nat): seq<Inst>
    decreases |code| - i
  {
    if i >= |code| then code
    else if code[i].IOpenCall? && code[i].rule < |pos| then
      var off := pos[code[i].rule] - i;
      var inst := if LeadsToRet(pre + code, |pre| + i + 2) then IJmp(off) else ICall(off);
      CorrectWhole(pre, code[i := inst], pos, i + 1)
    else CorrectWhole(pre, code, pos, i + 1)
  }

  lemma {:induction false} CallsLocal(pre: seq<Inst>, code: seq<Inst>, pos: seq<int>, i: nat)
    requires Inside(code) && (forall k :: 0 <= k < 4 && k < |code| ==> !code[k].IOpenCall?)
    requires forall r :: 0 <= r < |pos| ==> 4 <= pos[r] < |code|
    ensures CorrectWhole(pre, code, pos, i) == CorrectCalls(code, pos, i)
    decreases |code| - i
  {
    if i < |code| {
      if code[i].IOpenCall? && code[i].rule < |pos| {
        assert JumpInside(code, i);
        WholeLeads(pre, code, i + 2);
        var off := pos[code[i].rule] - i;
        var code1 := code[i := if LeadsToRet(code, i + 2) then IJmp(off) else ICall(off)];
        forall k | 4 <= k < |code1| ensures JumpInside(code1, k) { assert JumpInside(code, k); }
        CallsLocal(pre, code1, pos, i + 1);
      } else {
        CallsLocal(pre, code, pos, i + 1);
      }
    }
  }

  // ------------------------------------------------------------ generated code

  lemma {:induction false} RulesInside(g: Grammar, rest: Grammar, t: Tree, d: nat)
    requires t == TGrammar(g) && Closed([], t, d) && rest != [] && forall p :: p in rest ==> p in g
    ensures var c := GenRules(g, rest, d); |c| > 0 && Tidy(c, 0, |c| - 1) && c[|c| - 1] == IRet
    decreases |rest|
  {
    assert rest[0] in rest;
    var c := Gen(g, rest[0], false, NoGuard, FULL, d);
    GenTidy(g, rest[0], false, NoGuard, FULL, d);
    TidyPlain([IRet], -|c|, 0);
    TidyCat(c, [IRet], 0, |c|);
    var tail := GenRules(g, rest[1..], d);
    assert GenRules(g, rest, d) == c + [IRet] + tail;
    if |rest| > 1 {
      RulesInside(g, rest[1..], t, d);
      var n := |c| + 1;
      TidyWider(c + [IRet], 0, |c|, 0, n + |tail| - 1);
      TidyWider(tail, 0, |tail| - 1, -n, |tail| - 1);
      TidyCat(c + [IRet], tail, 0, n + |tail| - 1);
    } else {
      assert tail == [] && c + [IRet] + tail == c + [IRet];
    }
  }

  lemma {:induction false} PositionsInside(g: Grammar, rest: Grammar, start: nat, d: nat, r: nat)
    requires r < |rest|
    ensures start <= Positions(g, rest, start, d)[r] < start + |GenRules(g, rest, d)|
    decreases |rest|
  {
    if r > 0 { PositionsInside(g, rest[1..], start + |Gen(g, rest[0], false, NoGuard, FULL, d)| + 1, d, r - 1); }
  }

  /** Whatever code comes before a grammar: its calls are closed as if its code
      were all. */
  lemma {:induction false} GrammarCallsLocal(pre: seq<Inst>, rs: Grammar, d: nat)
    requires Closed([], TGrammar(rs), d)
    ensures var raw, pos := RawGrammar(rs, GenRules(rs, rs, d)), Positions(rs, rs, 4, d);
      CorrectWhole(pre, raw, pos, 0) == CorrectCalls(raw, pos, 0)
  {
    var bodies := GenRules(rs, rs, d);
    var raw, pos := RawGrammar(rs, bodies), Positions(rs, rs, 4, d);
    RulesInside(rs, rs, TGrammar(rs), d);
    forall k | 4 <= k < |raw| ensures JumpInside(raw, k) {
      assert raw[k] == bodies[k - 4];
      if raw[k].IJmp? { assert Points(bodies, k - 4, 0, |bodies| - 1); }
      if raw[k].IOpenCall? { assert ExtAfter(bodies, k - 4); }
    }
    forall r | 0 <= r < |pos| ensures 4 <= pos[r] < |raw| { PositionsInside(rs, rs, 4, d, r); }
    CallsLocal(pre, raw, pos, 0);
  }
}
