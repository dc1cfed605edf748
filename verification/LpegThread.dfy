/** The form of generated code that jump threading relies on: labels stay inside
    the code, and jumps take two slots. */
module LpegThread {
  import opened LpegTree
  import opened LpegVm
  import opened LpegCode
  import opened LpegCorrect
  import opened LpegGrammar
  import opened LpegPeephole
  import opened LpegJumps

  // ------------------------------------------------ the form of compiled code

  /** Jumps and open calls take two slots. */
  ghost predicate Paired(c: seq<Inst>)
  {
    forall k :: 0 <= k < |c| && (c[k].IJmp? || c[k].IOpenCall?) ==> ExtAfter(c, k)
  }

  ghost predicate ExtAfter(c: seq<Inst>, k: int)
  {
    0 <= k && k + 1 < |c| && c[k + 1] == Ext
  }

  /** Labels point to places from `lo` to `hi`, relative to the start. */
  ghost predicate Fits(c: seq<Inst>, lo: int, hi: int)
  {
    forall k :: 0 <= k < |c| && HasLabel(c[k]) ==> Points(c, k, lo, hi)
  }

  ghost predicate Points(c: seq<Inst>, k: int, lo: int, hi: int)
    requires 0 <= k < |c| && HasLabel(c[k])
  {
    lo <= k + c[k].off <= hi
  }

  lemma {:induction false} PairedCat(a: seq<Inst>, b: seq<Inst>)
    requires Paired(a) && Paired(b)
    ensures Paired(a + b)
  {
    var c := a + b;
    forall k | 0 <= k < |c| && (c[k].IJmp? || c[k].IOpenCall?) ensures ExtAfter(c, k) {
      if k < |a| { assert ExtAfter(a, k); } else { assert ExtAfter(b, k - |a|); }
    }
  }

  lemma {:induction false} FitsCat(a: seq<Inst>, b: seq<Inst>, lo: int, hi: int)
    requires Fits(a, lo, hi) && Fits(b, lo - |a|, hi - |a|)
    ensures Fits(a + b, lo, hi)
  {
    var c := a + b;
    forall k | 0 <= k < |c| && HasLabel(c[k]) ensures Points(c, k, lo, hi) {
      if k < |a| { assert Points(a, k, lo, hi); } else { assert Points(b, k - |a|, lo - |a|, hi - |a|); }
    }
  }

  ghost predicate Tidy(c: seq<Inst>, lo: int, hi: int)
  {
    Paired(c) && Fits(c, lo, hi)
  }

  lemma {:induction false} TidyCat(a: seq<Inst>, b: seq<Inst>, lo: int, hi: int)
    requires Tidy(a, lo, hi) && Tidy(b, lo - |a|, hi - |a|)
    ensures Tidy(a + b, lo, hi)
  {
    PairedCat(a, b);
    FitsCat(a, b, lo, hi);
  }

  lemma {:induction false} TidyWider(c: seq<Inst>, lo: int, hi: int, lo': int, hi': int)
    requires Tidy(c, lo, hi) && lo' <= lo && hi <= hi'
    ensures Tidy(c, lo', hi')
  {
    forall k | 0 <= k < |c| && HasLabel(c[k]) ensures Points(c, k, lo', hi') { assert Points(c, k, lo, hi); }
  }

  lemma {:induction false} TidyPlain(c: seq<Inst>, lo: int, hi: int)
    requires forall inst :: inst in c ==> !HasLabel(inst) && !inst.IOpenCall?
    ensures Tidy(c, lo, hi)
  {
    forall k | 0 <= k < |c| ensures !HasLabel(c[k]) && !c[k].IOpenCall? { assert c[k] in c; }
  }

  lemma {:induction false} WideTidy(inst: Inst, n: nat)
    requires !HasLabel(inst) && !inst.IOpenCall?
    ensures Tidy([inst] + Exts(n), 0, 1 + n)
  {
    TidyPlain([inst] + Exts(n), 0, 1 + n);
  }

  /** An instruction with a label, and its second slot. */
  lemma {:induction false} TidyPair(inst: Inst, lo: int, hi: int)
    requires inst.IOpenCall? || (HasLabel(inst) && lo <= inst.off <= hi)
    ensures Tidy([inst, Ext], lo, hi)
  {
    var c := [inst, Ext];
    assert ExtAfter(c, 0);
    if HasLabel(inst) { assert Points(c, 0, lo, hi); }
  }

  lemma {:induction false} TidyTest(fs: First, skip: nat, lo: int, hi: int)
    requires lo <= 0 && TLen(fs) + skip <= hi
    ensures Tidy(Test(fs, skip), lo, hi)
  {
    if !fs.empty {
      var c := Test(fs, skip);
      forall k | 0 < k < |c| ensures c[k] == Ext { }
      assert Points(c, 0, lo, hi);
      if c[0].IJmp? { assert ExtAfter(c, 0); }
    }
  }

  lemma {:induction false} Tidy3(a: seq<Inst>, b: seq<Inst>, c: seq<Inst>, lo: int, hi: int)
    requires Tidy(a, lo, hi) && Tidy(b, lo - |a|, hi - |a|) && Tidy(c, lo - |a| - |b|, hi - |a| - |b|)
    ensures Tidy(a + b + c, lo, hi)
  {
    TidyCat(a, b, lo, hi);
    TidyCat(a + b, c, lo, hi);
  }

  lemma {:induction false} Tidy4(a: seq<Inst>, b: seq<Inst>, c: seq<Inst>, d: seq<Inst>, lo: int, hi: int)
    requires Tidy(a, lo, hi) && Tidy(b, lo - |a|, hi - |a|) && Tidy(c, lo - |a| - |b|, hi - |a| - |b|)
    requires Tidy(d, lo - |a| - |b| - |c|, hi - |a| - |b| - |c|)
    ensures Tidy(a + b + c + d, lo, hi)
  {
    Tidy3(a, b, c, lo, hi);
    TidyCat(a + b + c, d, lo, hi);
  }

  /** Compiled code: labels stay inside the code of the tree or point just
      behind it. */
  lemma {:induction false} GenTidy(g: Grammar, t: Tree, opt: bool, tt: Guard, fl: Charset, d: nat)
    requires Closed(g, t, d)
    ensures Tidy(Gen(g, t, opt, tt, fl, d), 0, |Gen(g, t, opt, tt, fl, d)|)
    decreases t, 1
  {
    var c := Gen(g, t, opt, tt, fl, d);
    match t
    case TSeq(p1, p2) =>
      var fl1 := if NeedFollow(p1) then GetFirst(g, p2, fl, d).cs else FULL;
      var tt2 := if FixedLen(g, p1, d) != 0 then NoGuard else tt;
      GenTidy(g, p1, false, tt, fl1, d);
      GenTidy(g, p2, opt, tt2, fl, d);
      SeqTidy(Gen(g, p1, false, tt, fl1, d), Gen(g, p2, opt, tt2, fl, d));
      assert c == GenSeq(g, p1, p2, t, opt, tt, fl, d);
    case TChoice(p1, p2) =>
      ChoiceTidy(g, p1, p2, t, opt, fl, d);
    case TRep(p) =>
      RepTidy(g, p, t, opt, fl, d);
    case TNot(p) =>
      NotTidy(g, p, t, d);
    case TAnd(p) =>
      AndTidy(g, p, t, tt, d);
    case TBehind(n, p) =>
      GenTidy(g, p, false, NoGuard, FULL, d);
      TidyPlain(if n > 0 then [IBehind(n)] else [], 0, if n > 0 then 1 else 0);
      SeqTidy(if n > 0 then [IBehind(n)] else [], Gen(g, p, false, NoGuard, FULL, d));
      assert c == GenBehind(g, n, p, t, d);
    case TCall(r) => TidyPair(IOpenCall(r), 0, 2);
    case TGrammar(rs) => GrammarTidy(rs, t, d);
    case _ => TidyPlain(c, 0, |c|);
  }

  lemma {:induction false} SeqTidy(c1: seq<Inst>, c2: seq<Inst>)
    requires Tidy(c1, 0, |c1|) && Tidy(c2, 0, |c2|)
    ensures Tidy(c1 + c2, 0, |c1 + c2|)
  {
    TidyWider(c1, 0, |c1|, 0, |c1 + c2|);
    TidyWider(c2, 0, |c2|, -|c1|, |c2|);
    TidyCat(c1, c2, 0, |c1 + c2|);
  }

  lemma {:induction false} NotTidy(g: Grammar, p: Tree, t: Tree, d: nat)
    requires Closed(g, t, d) && t == TNot(p)
    ensures Tidy(GenNot(g, p, t, d), 0, |GenNot(g, p, t, d)|)
    decreases t, 0
  {
    var f1 := GetFirst(g, p, FULL, d);
    if HeadFail(g, p, d) {
      TidyTest(f1, 1, 0, TLen(f1) + 1);
      TidyPlain([IFail], 0 - TLen(f1), 1);
      TidyCat(Test(f1, 1), [IFail], 0, TLen(f1) + 1);
    } else {
      GenTidy(g, p, false, NoGuard, FULL, d);
      WrapTidy(f1, IChoice(3 + |Gen(g, p, false, NoGuard, FULL, d)|), Gen(g, p, false, NoGuard, FULL, d), [IFailTwice]);
    }
  }

  /** test L; inst; code; tail, where the tail has no label or a backward one */
  lemma {:induction false} WrapTidy(fs: First, inst: Inst, c: seq<Inst>, tail: seq<Inst>)
    requires Tidy(c, 0, |c|) && HasLabel(inst) && 0 <= inst.off <= 2 + |c| + |tail|
    requires Tidy(tail, 0 - |c|, |tail|)
    ensures var all := Test(fs, 2 + |c| + |tail|) + [inst, Ext] + c + tail; Tidy(all, 0, |all|)
  {
    var n := TLen(fs);
    var hi := n + 2 + |c| + |tail|;
    TidyTest(fs, 2 + |c| + |tail|, 0, hi);
    TidyPair(inst, -n, hi - n);
    TidyWider(c, 0, |c|, -n - 2, hi - n - 2);
    TidyWider(tail, 0 - |c|, |tail|, -n - 2 - |c|, |tail|);
    Tidy4(Test(fs, 2 + |c| + |tail|), [inst, Ext], c, tail, 0, hi);
  }

  lemma {:induction false} AndTidy(g: Grammar, p: Tree, t: Tree, tt: Guard, d: nat)
    requires Closed(g, t, d) && t == TAnd(p)
    ensures Tidy(GenAnd(g, p, t, tt, d), 0, |GenAnd(g, p, t, tt, d)|)
    decreases t, 0
  {
    var n := FixedLen(g, p, d);
    var c := Gen(g, p, false, tt, FULL, d);
    GenTidy(g, p, false, tt, FULL, d);
    if 0 <= n <= MAXBEHIND {
      TidyPlain(if n > 0 then [IBehind(n)] else [], 0, if n > 0 then 1 else 0);
      SeqTidy(c, if n > 0 then [IBehind(n)] else []);
    } else {
      TidyPair(IBackCommit(3), 0 - |c|, 3);
      TidyPlain([IFail], -2 - |c|, 1);
      TidyCat([IBackCommit(3), Ext], [IFail], 0 - |c|, 3);
      assert [IBackCommit(3), Ext] + [IFail] == [IBackCommit(3), Ext, IFail];
      var none := First({}, true);
      WrapTidy(none, IChoice(4 + |c|), c, [IBackCommit(3), Ext, IFail]);
      assert Test(none, 2 + |c| + 3) + [IChoice(4 + |c|), Ext] == [IChoice(4 + |c|), Ext];
    }
  }

  lemma {:induction false} RepTidy(g: Grammar, p: Tree, t: Tree, opt: bool, fl: Charset, d: nat)
    requires Closed(g, t, d) && t == TRep(p)
    ensures Tidy(GenRep(g, p, t, opt, fl, d), 0, |GenRep(g, p, t, opt, fl, d)|)
    decreases t, 0
  {
    var f1 := GetFirst(g, p, FULL, d);
    var all := GenRep(g, p, t, opt, fl, d);
    if IsCharset(p) {
      WideTidy(ISpan(ToCharset(p)), CHARSETINSTSIZE - 1);
    } else if RepDecides(g, p, fl, d) {
      var fs := First(f1.cs, false);
      var c := Gen(g, p, false, TestGuard(fs), FULL, d);
      GenTidy(g, p, false, TestGuard(fs), FULL, d);
      RepTestTidy(fs, c);
      assert all == Test(fs, |c| + 2) + c + [IJmp(0 - TLen(fs) - |c|), Ext];
    } else {
      var c := Gen(g, p, false, NoGuard, FULL, d);
      GenTidy(g, p, false, NoGuard, FULL, d);
      RepLoopTidy(f1, if opt then IPartialCommit(2) else IChoice(4 + |c|), c);
      assert all == Test(f1, 4 + |c|) + [if opt then IPartialCommit(2) else IChoice(4 + |c|), Ext] + c +
        [IPartialCommit(0 - |c|), Ext];
    }
  }

  lemma {:induction false} RepLoopTidy(fs: First, inst: Inst, c: seq<Inst>)
    requires Tidy(c, 0, |c|) && HasLabel(inst) && 0 <= inst.off <= 4 + |c|
    ensures var all := Test(fs, 4 + |c|) + [inst, Ext] + c + [IPartialCommit(0 - |c|), Ext]; Tidy(all, 0, |all|)
  {
    TidyPair(IPartialCommit(0 - |c|), 0 - |c|, 2);
    WrapTidy(fs, inst, c, [IPartialCommit(0 - |c|), Ext]);
  }

  lemma {:induction false} RepTestTidy(fs: First, c: seq<Inst>)
    requires Tidy(c, 0, |c|)
    ensures var all := Test(fs, |c| + 2) + c + [IJmp(0 - TLen(fs) - |c|), Ext]; Tidy(all, 0, |all|)
  {
    var n := TLen(fs);
    TidyTest(fs, |c| + 2, 0, n + |c| + 2);
    TidyWider(c, 0, |c|, -n, |c| + 2);
    TidyPair(IJmp(0 - n - |c|), -n - |c|, 2);
    Tidy3(Test(fs, |c| + 2), c, [IJmp(0 - n - |c|), Ext], 0, n + |c| + 2);
  }

  lemma {:induction false} ChoiceTidy(g: Grammar, p1: Tree, p2: Tree, t: Tree, opt: bool, fl: Charset, d: nat)
    requires Closed(g, t, d) && t == TChoice(p1, p2)
    ensures Tidy(GenChoice(g, p1, p2, t, opt, fl, d), 0, |GenChoice(g, p1, p2, t, opt, fl, d)|)
    decreases t, 0
  {
    var f1 := GetFirst(g, p1, FULL, d);
    var c2 := Gen(g, p2, opt, NoGuard, fl, d);
    GenTidy(g, p2, opt, NoGuard, fl, d);
    if TestDecides(g, p1, p2, fl, d) {
      ChoiceTestTidied(g, p1, p2, t, opt, fl, d);
    } else if opt && p2.TTrue? {
      GenTidy(g, p1, true, NoGuard, FULL, d);
      TidyPair(IPartialCommit(2), 0, 2);
      SeqTidy([IPartialCommit(2), Ext], Gen(g, p1, true, NoGuard, FULL, d));
    } else {
      GenTidy(g, p1, p2.TTrue?, TestGuard(f1), FULL, d);
      var c1 := Gen(g, p1, p2.TTrue?, TestGuard(f1), FULL, d);
      ChoiceBackTidy(f1, c1, c2);
      assert GenChoice(g, p1, p2, t, opt, fl, d) ==
        Test(f1, 4 + |c1|) + [IChoice(4 + |c1|), Ext] + c1 + [ICommit(2 + |c2|), Ext] + c2;
    }
  }

  lemma {:induction false} ChoiceTestTidied(g: Grammar, p1: Tree, p2: Tree, t: Tree, opt: bool, fl: Charset, d: nat)
    requires Closed(g, t, d) && t == TChoice(p1, p2) && TestDecides(g, p1, p2, fl, d)
    ensures Tidy(GenChoice(g, p1, p2, t, opt, fl, d), 0, |GenChoice(g, p1, p2, t, opt, fl, d)|)
    decreases t, 0, 0
  {
    var fs := First(GetFirst(g, p1, FULL, d).cs, false);
    var c1 := Gen(g, p1, false, TestGuard(fs), fl, d);
    var c2 := Gen(g, p2, opt, NoGuard, fl, d);
    var jmp := if p2.TTrue? then [] else [IJmp(2 + |c2|), Ext];
    GenTidy(g, p1, false, TestGuard(fs), fl, d);
    GenTidy(g, p2, opt, NoGuard, fl, d);
    ChoiceTestTidy(fs, c1, jmp, c2);
    assert GenChoice(g, p1, p2, t, opt, fl, d) == Test(fs, |c1| + |jmp|) + c1 + jmp + c2;
  }

  lemma {:induction false} ChoiceTestTidy(fs: First, c1: seq<Inst>, jmp: seq<Inst>, c2: seq<Inst>)
    requires Tidy(c1, 0, |c1|) && Tidy(c2, 0, |c2|) && (jmp == [] || jmp == [IJmp(2 + |c2|), Ext])
    ensures var all := Test(fs, |c1| + |jmp|) + c1 + jmp + c2; Tidy(all, 0, |all|)
  {
    var n := TLen(fs);
    var hi := n + |c1| + |jmp| + |c2|;
    TidyTest(fs, |c1| + |jmp|, 0, hi);
    TidyWider(c1, 0, |c1|, -n, hi - n);
    if jmp != [] { TidyPair(IJmp(2 + |c2|), -n - |c1|, hi - n - |c1|); }
    TidyWider(c2, 0, |c2|, -n - |c1| - |jmp|, |c2|);
    Tidy4(Test(fs, |c1| + |jmp|), c1, jmp, c2, 0, hi);
  }

  lemma {:induction false} ChoiceBackTidy(fs: First, c1: seq<Inst>, c2: seq<Inst>)
    requires Tidy(c1, 0, |c1|) && Tidy(c2, 0, |c2|)
    ensures var all := Test(fs, 4 + |c1|) + [IChoice(4 + |c1|), Ext] + c1 + [ICommit(2 + |c2|), Ext] + c2;
      Tidy(all, 0, |all|)
  {
    var n := TLen(fs);
    var hi := n + 4 + |c1| + |c2|;
    TidyTest(fs, 4 + |c1|, 0, hi);
    TidyPair(IChoice(4 + |c1|), -n, hi - n);
    TidyWider(c1, 0, |c1|, -n - 2, hi - n - 2);
    TidyPair(ICommit(2 + |c2|), -n - 2 - |c1|, 2 + |c2|);
    Tidy4(Test(fs, 4 + |c1|), [IChoice(4 + |c1|), Ext], c1, [ICommit(2 + |c2|), Ext], 0, hi);
    TidyWider(c2, 0, |c2|, -n - 4 - |c1|, |c2|);
    TidyCat(Test(fs, 4 + |c1|) + [IChoice(4 + |c1|), Ext] + c1 + [ICommit(2 + |c2|), Ext], c2, 0, hi);
  }

  lemma {:induction false} RulesTidy(g: Grammar, rest: Grammar, t: Tree, d: nat)
    requires t == TGrammar(g) && Closed([], t, d) && forall p :: p in rest ==> p in g
    ensures Tidy(GenRules(g, rest, d), 0, |GenRules(g, rest, d)|)
    decreases t, 0, |rest|
  {
    if rest != [] {
      assert rest[0] in rest;
      var c := Gen(g, rest[0], false, NoGuard, FULL, d);
      GenTidy(g, rest[0], false, NoGuard, FULL, d);
      TidyPlain([IRet], 0, 1);
      SeqTidy(c, [IRet]);
      RulesTidy(g, rest[1..], t, d);
      SeqTidy(c + [IRet], GenRules(g, rest[1..], d));
    }
  }

  lemma {:induction false} GrammarTidy(rs: Grammar, t: Tree, d: nat)
    requires t == TGrammar(rs) && Closed([], t, d)
    ensures var c := CorrectCalls(RawGrammar(rs, GenRules(rs, rs, d)), Positions(rs, rs, 4, d), 0); Tidy(c, 0, |c|)
    decreases t, 0
  {
    var bodies := GenRules(rs, rs, d);
    RulesTidy(rs, rs, t, d);
    RawTidy(rs, bodies);
    RawRules(rs, d, bodies);
    RawCalls(rs, d);
    CorrectTidy(RawGrammar(rs, bodies), Positions(rs, rs, 4, d));
  }

  lemma {:induction false} RawTidy(rs: Grammar, bodies: seq<Inst>)
    requires Tidy(bodies, 0, |bodies|)
    ensures Tidy(RawGrammar(rs, bodies), 0, 4 + |bodies|)
  {
    var head := [ICall(4), Ext] + [IJmp(2 + |bodies|), Ext];
    TidyPair(ICall(4), 0, 4 + |bodies|);
    TidyPair(IJmp(2 + |bodies|), -2, 2 + |bodies|);
    TidyCat([ICall(4), Ext], [IJmp(2 + |bodies|), Ext], 0, 4 + |bodies|);
    TidyWider(bodies, 0, |bodies|, -4, |bodies|);
    TidyCat(head, bodies, 0, 4 + |bodies|);
    assert RawGrammar(rs, bodies) == head + bodies;
  }

  /** Closing the calls keeps the form. */
  lemma {:induction false} CorrectTidy(raw: seq<Inst>, pos: seq<int>)
    requires Tidy(raw, 0, |raw|) && CallsBelow(raw, |pos|) && forall r :: 0 <= r < |pos| ==> 0 <= pos[r] <= |raw|
    ensures var c := CorrectCalls(raw, pos, 0); Tidy(c, 0, |c|)
  {
    CorrectCallsSpec(raw, pos, 0);
    var c := CorrectCalls(raw, pos, 0);
    forall k | 0 <= k < |c| && (c[k].IJmp? || c[k].IOpenCall?) ensures ExtAfter(c, k) {
      assert ExtAfter(raw, k);
    }
    forall k | 0 <= k < |c| && HasLabel(c[k]) ensures Points(c, k, 0, |c|) {
      if raw[k].IOpenCall? { assert raw[k] in raw; assert CallClosed(c, pos, k, raw[k].rule); }
        else { assert Points(raw, k, 0, |raw|); }
    }
  }
}
