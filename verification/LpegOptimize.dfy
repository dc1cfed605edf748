/** The pass over the finished code (`peephole` of lpcode.c), in place: it ends,
    keeps every answer, and leaves nothing of its own kind to do. */
module LpegOptimize {
  import opened LpegTree
  import opened LpegVm
  import opened LpegCode
  import opened LpegCorrect
  import opened LpegGrammar
  import opened LpegPeephole
  import opened LpegJumps
  import opened LpegThread

  /** Code that can be threaded: labels and jump chains stay inside. */
  ghost predicate Threadable(c: seq<Inst>)
  {
    Tidy(c, 0, |c| - 1) && forall k :: 0 <= k < |c| ==> Ends(c, k)
  }

  /** Whatever the first program answers, from any state, the second does. */
  ghost predicate Refines(c: seq<Inst>, c': seq<Inst>)
  {
    forall s, st, r :: Yields(c, s, st, r) ==> Yields(c', s, st, r)
  }

  lemma {:induction false} ThreadedRefines(c: seq<Inst>, c': seq<Inst>, i: int)
    requires Threaded(c, c', i)
    ensures Refines(c, c')
  {
    forall s, st, r | Yields(c, s, st, r) ensures Yields(c', s, st, r) {
      var n: nat :| Steps(c, s, st, n) == Done(r);
      if st.Run? {
        LeadsSelf(c, st.p);
        StackSelf(c, st.stk);
      }
      ThreadedAnswers(c, c', i, s, st, st, n, r);
    }
  }

  /** Chains of jumps still end when slot `i` ends at once or jumps to where it
      ended before. */
  lemma {:induction false} StillEnds(c: seq<Inst>, c': seq<Inst>, i: int, k: int, m: nat)
    requires |c'| == |c| && 0 <= i < |c| && (forall j :: 0 <= j < |c| && j != i && j != i + 1 ==> c'[j] == c[j])
    requires i + 1 < |c| ==> c'[i + 1] == c[i + 1] || c'[i + 1] == IAny
    requires !c'[i].IJmp? || (c[i].IJmp? && 0 <= i + c'[i].off < |c| && !c[i + c'[i].off].IJmp?)
    requires EndsBy(c, k, m)
    ensures Ends(c', k)
    decreases m
  {
    if 0 <= k < |c| && c'[k].IJmp? {
      if k == i { EndsHere(c', i + c'[i].off); }
      else { StillEnds(c, c', i, k + c[k].off, m - 1); }
      EndsJump(c', k);
    } else {
      EndsHere(c', k);
    }
  }

  lemma {:induction false} StillThreadable(c: seq<Inst>, c': seq<Inst>, i: int)
    requires Threadable(c) && |c'| == |c| && 0 <= i < |c| && HasLabel(c[i])
    requires forall j :: 0 <= j < |c| && j != i && j != i + 1 ==> c'[j] == c[j]
    requires i + 1 < |c| ==>
      c'[i + 1] == c[i + 1] || (c[i + 1] == Ext && c[i].IJmp? && !c'[i].IJmp? && c'[i + 1] == IAny)
    requires !c'[i].IOpenCall? && (HasLabel(c'[i]) ==> 0 <= i + c'[i].off < |c|)
    requires !c'[i].IJmp? || (c[i].IJmp? && !c[i + c'[i].off].IJmp?)
    ensures Threadable(c')
  {
    forall k | 0 <= k < |c| ensures Ends(c', k) {
      assert Ends(c, k);
      var m: nat :| EndsBy(c, k, m);
      StillEnds(c, c', i, k, m);
    }
    forall k | 0 <= k < |c'| && (c'[k].IJmp? || c'[k].IOpenCall?) ensures ExtAfter(c', k) { assert ExtAfter(c, k); }
    forall k | 0 <= k < |c'| && HasLabel(c'[k]) ensures Points(c', k, 0, |c| - 1) {
      if k != i { assert Points(c, k, 0, |c| - 1); }
    }
  }

  /** Control never passes beyond the instruction; a jump to it is replaced. */
  predicate Terminal(inst: Inst)
  {
    || inst.IRet? || inst.IFail? || inst.IFailTwice? || inst.IEnd?
    || inst.ICommit? || inst.IPartialCommit? || inst.IBackCommit?
  }

  /** Nothing is left to do for a slot: its label is not that of a jump, and a
      jump is not to an instruction it could be replaced with. */
  ghost predicate Settled(c: seq<Inst>, k: int)
    requires 0 <= k < |c|
  {
    HasLabel(c[k]) ==> var t := k + c[k].off; 0 <= t < |c| && !c[t].IJmp? && (c[k].IJmp? ==> !Terminal(c[t]))
  }

  /** From slot `k` the instructions go to slot `i`, and all are settled. */
  ghost predicate SettledTo(c: seq<Inst>, k: int, i: int)
    requires 0 <= k
    decreases i - k
  {
    k == i || (k < i && k < |c| && Settled(c, k) && SettledTo(c, k + Size(c[k]), i))
  }

  /** Only slot `i` changes, and what follows a jump there; what is no jump stays
      of its kind. */
  ghost predicate OnlyAt(c: seq<Inst>, c': seq<Inst>, i: int)
  {
    && |c'| == |c| && 0 <= i < |c|
    && (forall j :: 0 <= j < |c| && j != i && j != i + 1 ==> c'[j] == c[j])
    && (i + 1 < |c| ==> c'[i + 1] == c[i + 1] || c'[i + 1] == IAny)
    && (!c[i].IJmp? ==> !c'[i].IJmp? && Terminal(c'[i]) == Terminal(c[i]))
  }

  lemma {:induction false} SettledStays(c: seq<Inst>, c': seq<Inst>, k: int, i: int)
    requires OnlyAt(c, c', i) && 0 <= k && SettledTo(c, k, i)
    ensures SettledTo(c', k, i)
    decreases i - k
  {
    if k < i { SettledStays(c, c', k + Size(c[k]), i); }
  }

  lemma {:induction false} SettledNext(c: seq<Inst>, k: int, i: int)
    requires 0 <= k && 0 <= i < |c| && SettledTo(c, k, i) && Settled(c, i)
    ensures SettledTo(c, k, i + Size(c[i]))
    decreases i - k
  {
    if k < i { SettledNext(c, k + Size(c[k]), i); }
    else { assert SettledTo(c, i + Size(c[i]), i + Size(c[i])); }
  }

  /** Label of an instruction after threading: its final destination. */
  method ThreadLabel(code: array<Inst>, i: nat)
    requires i < code.Length && HasLabel(code[i]) && !code[i].IJmp? && Threadable(code[..])
    modifies code
    ensures Threadable(code[..]) && Refines(old(code[..]), code[..])
    ensures OnlyAt(old(code[..]), code[..], i) && Settled(code[..], i)
  {
    ghost var c := code[..];
    assert Points(c, i, 0, |c| - 1);
    var ft := FindFinalTarget(code[..], i + code[i].off);
    LeadsFinal(c, i + c[i].off);
    code[i] := SetOff(code[i], ft - i);
    assert Threaded(c, code[..], i);
    ThreadedRefines(c, code[..], i);
    StillThreadable(c, code[..], i);
  }

  /** The jump becomes an instruction after which control goes nowhere. */
  method CopyEnd(code: array<Inst>, i: nat, ft: nat)
    requires i < code.Length && code[i].IJmp? && Threadable(code[..]) && ft < code.Length && Leads(code[..], i, ft)
    requires code[ft].IRet? || code[ft].IFail? || code[ft].IFailTwice? || code[ft].IEnd?
    modifies code
    ensures Threadable(code[..]) && Refines(old(code[..]), code[..])
    ensures OnlyAt(old(code[..]), code[..], i) && Settled(code[..], i)
  {
    ghost var c := code[..];
    assert ExtAfter(c, i);
    code[i] := code[ft];
    code[i + 1] := IAny;
    assert CopyOf(c, ft, code[i], i);
    assert Threaded(c, code[..], i);
    ThreadedRefines(c, code[..], i);
    StillThreadable(c, code[..], i);
  }

  /** The jump becomes a commit, with the label that the commit leads to. */
  method CopyCommit(code: array<Inst>, i: nat, ft: nat)
    requires i < code.Length && code[i].IJmp? && Threadable(code[..]) && ft < code.Length && Leads(code[..], i, ft)
    requires code[ft].ICommit? || code[ft].IPartialCommit? || code[ft].IBackCommit?
    modifies code
    ensures Threadable(code[..]) && Refines(old(code[..]), code[..])
    ensures OnlyAt(old(code[..]), code[..], i) && Settled(code[..], i)
  {
    ghost var c := code[..];
    assert Points(c, ft, 0, |c| - 1);
    var fft := FindFinalTarget(code[..], ft + code[ft].off);
    LeadsFinal(c, ft + c[ft].off);
    code[i] := SetOff(code[ft], fft - i);
    assert fft != i && code[i].off == fft - i && code[..][fft] == c[fft];
    assert CopyOf(c, ft, code[i], i);
    assert Threaded(c, code[..], i);
    ThreadedRefines(c, code[..], i);
    StillThreadable(c, code[..], i);
  }

  /** The jump goes straight to where it leads. */
  method JumpStraight(code: array<Inst>, i: nat, ft: nat)
    requires i < code.Length && code[i].IJmp? && Threadable(code[..]) && ft < code.Length && Leads(code[..], i, ft)
    requires !code[ft].IJmp? && !Terminal(code[ft])
    modifies code
    ensures Threadable(code[..]) && Refines(old(code[..]), code[..])
    ensures OnlyAt(old(code[..]), code[..], i) && Settled(code[..], i)
  {
    ghost var c := code[..];
    LeadsOn(c, i, ft);
    code[i] := IJmp(ft - i);
    assert code[..][ft] == c[ft];
    assert Threaded(c, code[..], i);
    ThreadedRefines(c, code[..], i);
    StillThreadable(c, code[..], i);
  }

  /** A jump becomes the instruction it leads to, if control does not pass
      beyond that, and goes straight to it otherwise. */
  method ThreadJump(code: array<Inst>, i: nat)
    requires i < code.Length && code[i].IJmp? && Threadable(code[..])
    modifies code
    ensures Threadable(code[..]) && Refines(old(code[..]), code[..])
    ensures OnlyAt(old(code[..]), code[..], i) && Settled(code[..], i)
  {
    var ft := FindFinalTarget(code[..], i);
    LeadsFinal(code[..], i);
    if code[ft].IRet? || code[ft].IFail? || code[ft].IFailTwice? || code[ft].IEnd? {
      CopyEnd(code, i, ft);
    } else if code[ft].ICommit? || code[ft].IPartialCommit? || code[ft].IBackCommit? {
      CopyCommit(code, i, ft);
    } else {
      JumpStraight(code, i, ft);
    }
  }

  lemma {:induction false} LeadsOn(c: seq<Inst>, i: int, ft: int)
    requires 0 <= i < |c| && c[i].IJmp? && Leads(c, i, ft) && i != ft
    ensures Leads(c, i + c[i].off, ft)
  {
    LeadsNext(c, i, ft);
  }

  /** One turn of the loop of `peephole`. */
  method ThreadSlot(code: array<Inst>, i: nat)
    requires i < code.Length && Threadable(code[..]) && SettledTo(code[..], 0, i)
    modifies code
    ensures Threadable(code[..]) && Refines(old(code[..]), code[..])
    ensures SettledTo(code[..], 0, i) && Settled(code[..], i)
  {
    ghost var c := code[..];
    if code[i].IJmp? {
      ThreadJump(code, i);
      SettledStays(c, code[..], 0, i);
    }
    ghost var c1 := code[..];
    if HasLabel(code[i]) && !code[i].IJmp? {
      ThreadLabel(code, i);
      SettledStays(c1, code[..], 0, i);
    }
  }

  /** `peephole`: every answer stays, and no label is left on a jump and no jump
      to an instruction that could stand in its place. */
  method Peephole(code: array<Inst>)
    requires Threadable(code[..])
    modifies code
    ensures Threadable(code[..]) && Refines(old(code[..]), code[..])
    ensures exists n :: n >= code.Length && SettledTo(code[..], 0, n)
  {
    var i := 0;
    while i < code.Length
      invariant 0 <= i && Threadable(code[..]) && Refines(old(code[..]), code[..]) && SettledTo(code[..], 0, i)
    {
      ThreadSlot(code, i);
      SettledNext(code[..], 0, i);
      i := i + Size(code[i]);
    }
  }

  /** The code of every accepted pattern can be threaded. */
  lemma {:induction false} CompiledThreadable(t: Tree, d: nat)
    requires Closed([], t, d) && CallFree(t) && SubsAccepted(t, d)
    ensures Threadable(Compile(t, d))
  {
    var c := Gen([], t, false, NoGuard, FULL, d);
    GenTidy([], t, false, NoGuard, FULL, d);
    TidyPlain([IEnd], 0 - |c|, 0);
    TidyCat(c, [IEnd], 0, |c|);
    CompiledJumpsEnd(t, d);
  }
}
