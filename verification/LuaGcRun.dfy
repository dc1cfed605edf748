/** Runs of the collector interleaved with the program: the invariant holds in
    every state, no reachable object is ever freed, and a full cycle leaves
    exactly what was reachable. */
module LuaGcRun {
  import opened LuaGc
  import opened LuaGcSafe

  // ---------------------------------------------------------- collector steps

  lemma {:induction false} TriMarking(s: State)
    requires Basic(s) && TriColor(s)
    ensures Marking(s, s.grayagain, {}, {})
  {
    forall a | a in s.heap ensures Visited(s, s.grayagain, {}, a) { assert Proper(s, a); }
  }

  lemma {:induction false} MarkingTri(s: State)
    requires Marking(s, s.grayagain, {}, {}) && !IsWhite(s, s.mainthread)
    ensures TriColor(s) && forall a :: a in s.heap ==> Proper(s, a)
  {
    forall a | a in s.heap
      ensures Proper(s, a) && (s.mark[a] == Black ==> KidsMarked(s, a)) &&
        (s.mark[a] == Gray ==> a in s.gray || a in s.grayagain)
    {
      assert Visited(s, s.grayagain, {}, a);
    }
  }

  lemma {:induction false} HeapWhole(s: State)
    requires Basic(s) && Intact(s) && NoDead(s)
    ensures Whole(s.heap)
  {
    forall a, b | Edge(s.heap, a, b) ensures b in s.heap { assert !Dead(s, a); }
  }

  /** Marking keeps the rest of the invariant. */
  lemma {:induction false} StillFine(s: State, s': State)
    requires Basic(s) && Intact(s) && NoDead(s) && SameWhite(s.mark, s'.mark)
    requires s' == s.(mark := s'.mark, gray := s'.gray, grayagain := s'.grayagain, gcstate := s'.gcstate)
    requires forall a :: a in s'.heap ==> Proper(s', a)
    ensures Basic(s') && Intact(s') && NoDead(s')
  {
    HeapWhole(s);
    forall o | o in s'.heap ensures !Dead(s', o) {
      assert !Dead(s, o);
    }
    forall r | r in Roots(s') ensures r in s'.heap && !Dead(s', r) { assert r in Roots(s); }
  }

  lemma {:induction false} MarkingInv(s: State, s1: State, g: GcState)
    requires Basic(s) && Intact(s) && NoDead(s) && SameWhite(s.mark, s1.mark) && s.sweepgc == NOSWEEP
    requires s1 == s.(mark := s1.mark, gray := s1.gray, grayagain := s1.grayagain)
    requires Marking(s1, s1.grayagain, {}, {}) && !IsWhite(s1, s1.mainthread)
    requires g.GCSatomic? || (g.GCSpropagate? && s1.gray != [])
    ensures Inv(s1.(gcstate := g))
  {
    MarkingTri(s1);
    var s' := s1.(gcstate := g);
    forall a | a in s'.heap ensures Proper(s', a) && (s'.mark[a] == Black ==> KidsMarked(s', a)) {
      assert Proper(s1, a);
      if s1.mark[a] == Black { assert KidsMarked(s1, a); }
    }
    StillFine(s, s');
  }

  lemma {:induction false} AllWhite(s: State)
    requires Basic(s) && Swept(s, |s.allgc|) && s.mark[s.mainthread] == s.currentwhite
    ensures forall o :: o in s.heap ==> s.mark[o] == s.currentwhite
  {
    forall o | o in s.heap ensures s.mark[o] == s.currentwhite {
      if o != s.mainthread {
        var i :| 0 <= i < |s.allgc| && s.allgc[i] == o;
      }
    }
  }

  lemma {:induction false} NothingMarked(s: State)
    requires s.mark.Keys == s.heap.Keys && s.gray == [] && forall o :: o in s.heap ==> IsWhite(s, o)
    ensures Marking(s, [], {}, {})
  {
    forall x ensures Count(s.gray, [], x) <= 1 {}
  }

  lemma {:induction false} PauseStep(s: State, live: iset<Ref>)
    requires Inv(s) && s.gcstate.GCSpause? && ClosedSet(s.heap, live) && forall r :: r in Roots(s) ==> r in live
    ensures var s' := Restart(s).(gcstate := GCSpropagate); Inv(s') && s'.heap == s.heap && Within(s', live)
  {
    var s0 := s.(gray := [], grayagain := []);
    AllWhite(s);
    HeapWhole(s);
    NothingMarked(s0);
    var roots := [s.mainthread, s.registry] + s.mt;
    forall r | r in roots ensures r in s0.heap && r in live { assert r in Roots(s); }
    MarkAllSpec(s0, roots, [], {}, {}, live);
    var s1 := MarkAll(s0, roots);
    assert s1 == Restart(s);
    assert s.mainthread in roots;
    assert Visited(s1, [], {}, s.mainthread);
    MarkingInv(s, s1, GCSpropagate);
  }

  lemma {:induction false} PropagateStep(s: State, live: iset<Ref>)
    requires Inv(s) && s.gcstate.GCSpropagate? && ClosedSet(s.heap, live) && Within(s, live)
    ensures s.gray != [] && Queued(s, s.gray[0])
    ensures var s1 := PropagateMark(s);
      var s' := if s1.gray == [] then s1.(gcstate := GCSatomic) else s1;
      Inv(s') && s'.heap == s.heap && Within(s', live)
  {
    TriMarking(s);
    HeapWhole(s);
    assert s.gray[0] in s.gray;
    PropagateSpec(s, s.grayagain, {}, live, true);
    var s1 := PropagateMark(s);
    var s' := if s1.gray == [] then s1.(gcstate := GCSatomic) else s1;
    MarkingInv(s, s1, s'.gcstate);
  }

  /** The atomic step up to the sweep: white now means dead. */
  lemma {:induction false} AtomicStep(s: State, live: iset<Ref>)
    requires Inv(s) && s.gcstate.GCSatomic? && ClosedSet(s.heap, live) && Within(s, live)
    requires forall r :: r in Roots(s) ==> r in live
    ensures var s' := Atomic(PropagateAll(s));
      && Basic(s') && Intact(s') &&
        s' == s.(mark := s'.mark, gray := s'.gray, grayagain := s'.grayagain, currentwhite := s'.currentwhite)
      && forall o :: o in s'.heap && !Dead(s', o) ==> o in live
  {
    TriMarking(s);
    HeapWhole(s);
    PropagateAllSpec(s, live);
    var s1 := PropagateAll(s);
    MarkingTri(s1);
    AtomicSpec(s1, live);
    var s' := Atomic(s1);
    WhiteIsDead(s, s');
  }

  lemma {:induction false} WhiteIsDead(s: State, s': State)
    requires Basic(s) && Intact(s) && NoDead(s) && Whole(s.heap) && SameWhite(s.mark, s'.mark) && Marked(s')
    requires s' ==
      s.(mark := s'.mark, gray := s'.gray, grayagain := s'.grayagain, currentwhite := Other(s.currentwhite))
    ensures Basic(s') && Intact(s') && forall o :: o in s'.heap ==> (Dead(s', o) <==> IsWhite(s', o))
  {
    forall o | o in s'.heap ensures Dead(s', o) <==> IsWhite(s', o) { assert !Dead(s, o); }
    forall r | r in Roots(s') ensures r in s'.heap && !Dead(s', r) { assert r in Roots(s); }
    forall a, b | a in s'.heap && !Dead(s', a) && Edge(s'.heap, a, b) ensures b in s'.heap && !Dead(s', b) {
      assert KidsMarked(s', a);
    }
  }

  lemma {:induction false} EnterSweepStep(s: State)
    requires Basic(s) && Intact(s)
    ensures var s' := EnterSweep(s); Inv(s') && Sweeps(s.(gcstate := GCSswpallgc), s')
  {
    var s0 := s.(gcstate := GCSswpallgc);
    forall o | o in s0.heap ensures Proper(s0, o) { assert Proper(s, o); }
    forall r | r in Roots(s0) ensures r in s0.heap && !Dead(s0, r) { assert r in Roots(s); }
    SweepSpec(s0, 0, 1);
  }

  /** Nothing but `live` has been marked, or survived marking, in this cycle. */
  ghost predicate Tight(s: State, live: iset<Ref>)
  {
    if KeepInvariant(s.gcstate) then Within(s, live)
    else forall o :: o in s.heap && !Dead(s, o) ==> o in live
  }

  /** The heap has only lost objects, none of them reachable. */
  ghost predicate Shrinks(s: State, s': State)
  {
    && Roots(s') == Roots(s)
    && (forall o :: o in s'.heap ==> o in s.heap && s'.heap[o] == s.heap[o])
    && (forall o :: Reach(s, o) ==> o in s'.heap)
  }

  lemma {:induction false} SameHeapShrinks(s: State, s': State)
    requires Basic(s) && Intact(s) && s'.heap == s.heap && Roots(s') == Roots(s)
    ensures Shrinks(s, s')
  {
    forall o | Reach(s, o) ensures o in s'.heap { ReachAlive(s, o); }
  }

  lemma {:induction false} SweepShrinks(s: State, s': State)
    requires Basic(s) && Intact(s) && Sweeps(s, s')
    ensures Shrinks(s, s')
  {
    forall o | Reach(s, o) ensures o in s'.heap { ReachAlive(s, o); }
  }

  lemma {:induction false} SameReach(s: State, s': State, o: Ref)
    requires s'.heap == s.heap && Roots(s') == Roots(s) && Reach(s, o)
    ensures Reach(s', o)
  {
    var p :| Path(s.heap, p) && p[0] in Roots(s) && p[|p| - 1] == o;
    assert Path(s'.heap, p);
  }

  /** Every step of the collector keeps the invariant and frees nothing that is
      reachable; `live` is any closed set with the roots in it. */
  lemma {:induction false} StepSafe(s: State, sweepmax: nat, live: iset<Ref>)
    requires Inv(s) && ClosedSet(s.heap, live) && forall r :: r in Roots(s) ==> r in live
    ensures s.sweepgc <= |s.allgc|
    ensures var s' := SingleStep(s, sweepmax);
      Inv(s') && Shrinks(s, s') && (Tight(s, live) || s.gcstate.GCSpause? ==> Tight(s', live))
  {
    var s' := SingleStep(s, sweepmax);
    match s.gcstate
    case GCSpause =>
      PauseStep(s, live);
      SameHeapShrinks(s, s');
    case GCSpropagate =>
      var l := if Within(s, live) then live else iset o | o in s.heap;
      HeapWhole(s);
      PropagateStep(s, l);
      SameHeapShrinks(s, s');
    case GCSatomic => AtomicSafe(s, live);
    case GCSswpallgc => SweepSafe(s, sweepmax, live);
    case _ => RestSafe(s, sweepmax, live);
  }

  lemma {:induction false} AtomicSafe(s: State, live: iset<Ref>)
    requires Inv(s) && s.gcstate.GCSatomic? && ClosedSet(s.heap, live) && forall r :: r in Roots(s) ==> r in live
    ensures var s' := EnterSweep(Atomic(PropagateAll(s)));
      Inv(s') && Shrinks(s, s') && (Within(s, live) ==> Tight(s', live))
  {
    var l := if Within(s, live) then live else iset o | o in s.heap;
    HeapWhole(s);
    AtomicStep(s, l);
    var s1 := Atomic(PropagateAll(s));
    EnterSweepStep(s1);
    var s' := EnterSweep(s1);
    AtomicShrinks(s, s1, s');
    SweptTight(s1, s', l);
  }

  lemma {:induction false} SweptTight(s1: State, s': State, l: iset<Ref>)
    requires Sweeps(s1.(gcstate := GCSswpallgc), s') && forall o :: o in s1.heap && !Dead(s1, o) ==> o in l
    ensures Tight(s', l)
  {
    forall o | o in s'.heap && !Dead(s', o)
      ensures o in l { assert !Dead(s1.(gcstate := GCSswpallgc), o) && !Dead(s1, o); }
  }

  lemma {:induction false} AtomicShrinks(s: State, s1: State, s': State)
    requires s1.heap == s.heap && Roots(s1) == Roots(s) && Basic(s1) && Intact(s1) &&
      Sweeps(s1.(gcstate := GCSswpallgc), s')
    ensures Shrinks(s, s')
  {
    forall o | Reach(s, o) ensures o in s'.heap {
      SameReach(s, s1, o);
      ReachAlive(s1, o);
      assert !Dead(s1.(gcstate := GCSswpallgc), o);
    }
  }

  lemma {:induction false} SweepSafe(s: State, sweepmax: nat, live: iset<Ref>)
    requires Inv(s) && s.gcstate.GCSswpallgc?
    ensures var s' := SingleStep(s, sweepmax); Inv(s') && Shrinks(s, s') && (Tight(s, live) ==> Tight(s', live))
  {
    var s' := SingleStep(s, sweepmax);
    var s1 := s;
    if s.sweepgc >= 0 {
      SweepSpec(s, s.sweepgc, sweepmax);
      s1 := SweepList(s, s.sweepgc, sweepmax);
      SweepShrinks(s, s1);
    } else {
      SameHeapShrinks(s, s);
    }
    Repaint(s1, s');
  }

  lemma {:induction false} Repaint(s: State, s': State)
    requires Basic(s) && Intact(s) && s' == s.(mark := s'.mark, gcstate := s'.gcstate)
    requires s'.mark == s.mark || s'.mark == s.mark[s.mainthread := s.currentwhite]
    ensures Basic(s') && Intact(s') && forall o :: Dead(s', o) <==> Dead(s, o)
  {
    forall o | o in s'.heap ensures Proper(s', o) { assert Proper(s, o); }
    assert s.mainthread in Roots(s);
    forall r | r in Roots(s') ensures r in s'.heap && !Dead(s', r) { assert r in Roots(s); }
  }

  lemma {:induction false} RestSafe(s: State, sweepmax: nat, live: iset<Ref>)
    requires Inv(s) && !KeepInvariant(s.gcstate) && !s.gcstate.GCSswpallgc? && !s.gcstate.GCSpause?
    ensures var s' := SingleStep(s, sweepmax); Inv(s') && Shrinks(s, s') && (Tight(s, live) ==> Tight(s', live))
  {
    var s' := SingleStep(s, sweepmax);
    Repaint(s, s');
    SameHeapShrinks(s, s');
  }

  // ------------------------------------------------------------------ mutator

  /** What the program can do, and steps of the collector. */
  datatype Op =
    | New(o: Ref, b: Obj)
    | Store(dst: Ref, i: nat, v: Ref, forward: bool)
    | Erase(dst: Ref, i: nat)
    | SetMt(mt: seq<Ref>)
    | Resume(th: Ref)
    | Collect(sweepmax: nat)
    | FullCollect(sweepmax: nat)

  predicate Empty(b: Obj) { Kids(b) == [] }

  /** The program holds only what it can reach. */
  ghost predicate Enabled(s: State, op: Op)
  {
    match op
    case New(o, b) => o !in s.heap && Empty(b)
    case Store(dst, _, v, _) => Reach(s, dst) && Reach(s, v)
    case Erase(dst, _) => Reach(s, dst)
    case SetMt(mt) => forall r :: r in mt ==> Reach(s, r)
    case Resume(th) => Reach(s, th) && th in s.heap && s.heap[th].Thread?
    case Collect(_) => true
    case FullCollect(sweepmax) => sweepmax > 0
  }

  /** A reference is stored and the barrier of the object's kind called. */
  function DoStore(s: State, o: Ref, i: nat, v: Ref, forward: bool): State
    requires o in s.heap && v in s.heap && s.mark.Keys == s.heap.Keys
  {
    var s1 := s.(heap := s.heap[o := Put(s.heap[o], i, v)]);
    match s.heap[o]
    case Str => s
    case Thread(_) => s1
    case Table(_) => if forward then Barrier(s1, o, v) else BarrierBack(s1, o, v)
    case _ => Barrier(s1, o, v)
  }

  function DoErase(s: State, o: Ref, i: nat): State
    requires o in s.heap
  {
    s.(heap := s.heap[o := Drop(s.heap[o], i)])
  }

  lemma PutKids(b: Obj, i: nat, v: Ref)
    ensures forall k :: k in Kids(Put(b, i, v)) ==> k in Kids(b) || k == v
    ensures Put(b, i, v).Thread? == b.Thread? && IsNode(Put(b, i, v)) == IsNode(b) && Put(b, i, v).Str? == b.Str?
  {
  }

  lemma DropKids(b: Obj, i: nat)
    ensures forall k :: k in Kids(Drop(b, i)) ==> k in Kids(b)
    ensures Drop(b, i).Thread? == b.Thread? && IsNode(Drop(b, i)) == IsNode(b)
  {
  }

  lemma {:induction false} NewInv(s: State, o: Ref, b: Obj)
    requires Inv(s) && o !in s.heap && Empty(b)
    ensures Inv(NewObj(s, o, b))
  {
    assert s.running in Roots(s);
    var s' := NewObj(s, o, b);
    NewBasic(s, o, b);
    NewIntact(s, o, b);
    match s.gcstate
    case GCSpropagate => NewTri(s, o, b);
    case GCSatomic => NewTri(s, o, b);
    case GCSswpallgc => NewSwept(s, o, b, Done(s));
    case _ => NewSwept(s, o, b, |s.allgc|);
  }

  lemma {:induction false} NewSwept(s: State, o: Ref, b: Obj, n: nat)
    requires s.running in s.heap && s.heap[s.running].Thread? && n <= |s.allgc| && Swept(s, n) && o !in s.mark
    ensures Swept(NewObj(s, o, b), n + 1)
  {
    var s' := NewObj(s, o, b);
    forall i | 0 <= i < n + 1 ensures s'.allgc[i] in s'.mark && s'.mark[s'.allgc[i]] == s'.currentwhite {
      if i > 0 { assert s'.allgc[i] == s.allgc[i - 1] && s.allgc[i - 1] in s.mark; }
    }
  }

  lemma {:induction false} NewBasic(s: State, o: Ref, b: Obj)
    requires Basic(s) && o !in s.heap && Empty(b)
    ensures Basic(NewObj(s, o, b))
  {
    assert s.running in Roots(s);
    var s' := NewObj(s, o, b);
    forall x | x in s'.heap ensures Proper(s', x) { if x != o { assert Proper(s, x); } }
    forall r | r in Roots(s') ensures r in s'.heap { assert r in Roots(s); }
    forall i, j | 0 <= i < j < |s'.allgc| ensures s'.allgc[i] != s'.allgc[j] {
      assert s'.allgc[j] == s.allgc[j - 1] && s.allgc[j - 1] in s.allgc;
      if i > 0 { assert s'.allgc[i] == s.allgc[i - 1]; }
    }
  }

  lemma {:induction false} NewIntact(s: State, o: Ref, b: Obj)
    requires Basic(s) && Intact(s) && o !in s.heap && Empty(b)
    ensures s.running in s.heap && Intact(NewObj(s, o, b))
  {
    assert s.running in Roots(s);
    var s' := NewObj(s, o, b);
    forall x | x in s.heap ensures Dead(s', x) <==> Dead(s, x) {}
    forall a, c | a in s'.heap && !Dead(s', a) && Edge(s'.heap, a, c) ensures c in s'.heap && !Dead(s', c) {
      if c != o { assert Edge(s.heap, a, c) && !Dead(s, a); }
    }
    forall r | r in Roots(s') ensures !Dead(s', r) { assert r in Roots(s) && r in s.heap; }
  }

  lemma {:induction false} NewTri(s: State, o: Ref, b: Obj)
    requires Basic(s) && Intact(s) && o !in s.heap && Empty(b) && NoDead(s) && TriColor(s)
    ensures s.running in s.heap && NewObj(s, o, b).mark.Keys == NewObj(s, o, b).heap.Keys
    ensures NoDead(NewObj(s, o, b)) && TriColor(NewObj(s, o, b))
  {
    assert s.running in Roots(s);
    var s' := NewObj(s, o, b);
    forall a | a in s'.heap ensures !Dead(s', a) { if a != o { assert !Dead(s, a); } }
    assert Proper(s, s.running);
    HeapWhole(s);
    forall a | a in s'.heap && s'.mark[a] == Black ensures KidsMarked(s', a) {
      assert KidsMarked(s, a);
      forall k | k in Kids(s'.heap[a]) ensures !IsWhite(s', k) { assert Edge(s.heap, a, k); }
    }
  }

  /** The heap with one object changed: no new references but to `v`. */
  ghost predicate Touched(s: State, s1: State, o: Ref, v: Ref)
  {
    && o in s.heap && o in s1.heap && s1 == s.(heap := s.heap[o := s1.heap[o]])
    && (forall k :: k in Kids(s1.heap[o]) ==> k in Kids(s.heap[o]) || k == v)
    && s1.heap[o].Thread? == s.heap[o].Thread? && IsNode(s1.heap[o]) == IsNode(s.heap[o])
  }

  lemma {:induction false} TouchedFine(s: State, s1: State, o: Ref, v: Ref)
    requires Basic(s) && Intact(s) && Touched(s, s1, o, v) && v in s.heap && !Dead(s, v)
    ensures Basic(s1) && Intact(s1)
  {
    forall x | x in s1.heap ensures Proper(s1, x) { assert Proper(s, x); }
    forall r | r in Roots(s1) ensures r in s1.heap && !Dead(s1, r) { assert r in Roots(s); }
    forall a, c | a in s1.heap && !Dead(s1, a) && Edge(s1.heap, a, c) ensures c in s1.heap && !Dead(s1, c) {
      if c != v { assert Edge(s.heap, a, c) && !Dead(s, a); }
    }
  }

  /** The tri-colour invariant may only be broken where `v` was stored. */
  lemma {:induction false} TouchedMarking(s: State, s1: State, o: Ref, v: Ref)
    requires Basic(s) && TriColor(s) && Touched(s, s1, o, v)
    ensures Marking(s1, s1.grayagain, {o}, {}) || IsWhite(s, o)
    ensures !(s.mark[o] == Black && IsWhite(s, v)) ==> Marking(s1, s1.grayagain, {}, {})
  {
    TriMarking(s);
    forall a | a in s1.heap && (a != o || !(s.mark[o] == Black && IsWhite(s, v)))
      ensures Visited(s1, s1.grayagain, {}, a) {
      assert Visited(s, s.grayagain, {}, a);
      if s.mark[a] == Black { assert KidsMarked(s, a); }
    }
  }

  /** Without need of a barrier. */
  lemma {:induction false} NoBarrierInv(s: State, s1: State, o: Ref, v: Ref)
    requires Inv(s) && Touched(s, s1, o, v) && v in s.heap && !Dead(s, v) && !(s.mark[o] == Black && IsWhite(s, v))
    ensures Inv(s1)
  {
    TouchedFine(s, s1, o, v);
    if KeepInvariant(s.gcstate) {
      TouchedMarking(s, s1, o, v);
      MarkingTri(s1);
      forall x | x in s1.heap ensures !Dead(s1, x) { assert !Dead(s, x); }
    }
  }

  /** `luaC_barrier` restores the invariant; its assertions hold. */
  lemma {:induction false} BarrierInv(s: State, s1: State, o: Ref, v: Ref)
    requires Inv(s) && Touched(s, s1, o, v) && v in s.heap && !Dead(s, v) && !Dead(s, o)
    ensures Inv(Barrier(s1, o, v))
    ensures s.mark[o] == Black && IsWhite(s, v) ==> KeepInvariant(s.gcstate) || IsSweepPhase(s.gcstate)
  {
    if !(s.mark[o] == Black && IsWhite(s, v)) { NoBarrierInv(s, s1, o, v); }
    else {
      TouchedFine(s, s1, o, v);
      if KeepInvariant(s.gcstate) {
        ForwardInv(s, s1, o, v);
      } else {
        if !IsSweepPhase(s.gcstate) { AllWhite(s); }
        WhitenInv(s, s1, o, v);
      }
    }
  }

  lemma {:induction false} ForwardInv(s: State, s1: State, o: Ref, v: Ref)
    requires Inv(s) && Touched(s, s1, o, v) && v in s.heap && s.mark[o] == Black && IsWhite(s, v)
    requires KeepInvariant(s.gcstate) && Basic(s1) && Intact(s1)
    ensures Inv(ReallyMark(s1, v))
  {
    TouchedMarking(s, s1, o, v);
    forall x | x in s1.heap ensures !Dead(s1, x) { assert !Dead(s, x); }
    HeapWhole(s1);
    var live := iset x | x in s1.heap;
    MarkSpec(s1, v, s1.grayagain, {o}, {}, live);
    var s' := ReallyMark(s1, v);
    assert Visited(s', s'.grayagain, {}, o) by {
      assert KidsMarked(s, o) && Proper(s1, o);
      assert s'.mark[o] == Black;
      forall k | k in Kids(s'.heap[o]) ensures !IsWhite(s', k) { if k != v { assert !IsWhite(s1, k); } }
    }
    SettleSpec(s', o, s'.grayagain, {}, {});
    GrayKept(s, s1, v);
    MarkingInv(s1, s', s.gcstate);
    assert s'.(gcstate := s.gcstate) == s';
  }

  /** Marking does not take anything out of the gray list. */
  lemma {:induction false} GrayKept(s: State, s1: State, v: Ref)
    requires IsWhite(s1, v) && v in s1.heap && s.gray == s1.gray
    ensures s.gray != [] ==> ReallyMark(s1, v).gray != []
    decreases Whites(s1.mark)
  {
    if s1.heap[v].Udata? {
      var Udata(meta, user) := s1.heap[v];
      var t1 := s1.(mark := s1.mark[v := Gray]);
      assert v in Whites(s1.mark) && v !in Whites(t1.mark) && Whites(t1.mark) <= Whites(s1.mark);
      if meta.Some? && IsWhite(t1, meta.v) && meta.v in t1.heap { GrayKept(t1, t1, meta.v); }
      var t2 := MarkOpt(t1, meta);
      var t3 := t2.(mark := t2.mark[v := Black]);
      assert Whites(t3.mark) <= Whites(t1.mark);
      if user.Some? && IsWhite(t3, user.v) && user.v in t3.heap { GrayKept(t3, t3, user.v); }
    }
  }

  /** In the sweep phase the object is swept at once. */
  lemma {:induction false} WhitenInv(s: State, s1: State, o: Ref, v: Ref)
    requires Inv(s) && Touched(s, s1, o, v) && !KeepInvariant(s.gcstate) && Basic(s1) && Intact(s1) && !Dead(s, o)
    ensures Inv(s1.(mark := s1.mark[o := s1.currentwhite]))
  {
    var s' := s1.(mark := s1.mark[o := s1.currentwhite]);
    forall x | x in s'.heap ensures Proper(s', x) { assert Proper(s1, x); }
    forall r | r in Roots(s') ensures r in s'.heap && !Dead(s', r) { assert r in Roots(s1); }
    assert forall i :: 0 <= i < |s'.allgc| && s.mark[s.allgc[i]] == s.currentwhite ==>
      s'.mark[s'.allgc[i]] == s'.currentwhite;
  }

  /** `luaC_barrierback` restores the invariant. */
  lemma {:induction false} BarrierBackInv(s: State, s1: State, o: Ref, v: Ref)
    requires Inv(s) && Touched(s, s1, o, v) && v in s.heap && !Dead(s, v) && s.heap[o].Table? && s1.heap[o].Table?
    ensures Inv(BarrierBack(s1, o, v))
  {
    if !(s.mark[o] == Black && IsWhite(s, v)) { NoBarrierInv(s, s1, o, v); }
    else {
      TouchedFine(s, s1, o, v);
      BackFine(s1, o);
      var s' := BarrierBack(s1, o, v);
      if KeepInvariant(s.gcstate) { BackTri(s, s1, o, v); }
      else {
        if !IsSweepPhase(s.gcstate) { AllWhite(s); }
        assert forall i :: 0 <= i < |s.allgc| && s.mark[s.allgc[i]] == s.currentwhite ==>
          s'.mark[s'.allgc[i]] == s'.currentwhite;
      }
    }
  }

  lemma {:induction false} BackFine(s: State, o: Ref)
    requires Basic(s) && Intact(s) && o in s.heap && s.heap[o].Table? && s.mark[o] == Black
    ensures var s' := s.(mark := s.mark[o := Gray], grayagain := [o] + s.grayagain); Basic(s') && Intact(s')
  {
    var s' := s.(mark := s.mark[o := Gray], grayagain := [o] + s.grayagain);
    forall x | x in s'.heap ensures Proper(s', x) { assert Proper(s, x); }
    forall r | r in Roots(s') ensures r in s'.heap && !Dead(s', r) { assert r in Roots(s); }
  }

  lemma {:induction false} BackLists(s: State, o: Ref)
    requires s.mark.Keys == s.heap.Keys && TriColor(s) && o in s.heap && s.mark[o] == Black
    ensures Once(s.gray, [o] + s.grayagain) && o !in s.gray && o !in s.grayagain
  {
    CountIn(s.gray, s.grayagain);
    CountPush(s.gray, s.grayagain, o);
    assert !Queued(s, o);
  }

  lemma {:induction false} BackTri(s: State, s1: State, o: Ref, v: Ref)
    requires Basic(s) && TriColor(s) && NoDead(s) && Touched(s, s1, o, v) && s1.heap[o].Table? && s.mark[o] == Black
    ensures var s' := s1.(mark := s1.mark[o := Gray], grayagain := [o] + s1.grayagain);
      s'.mark.Keys == s'.heap.Keys && TriColor(s') && NoDead(s')
  {
    var s' := s1.(mark := s1.mark[o := Gray], grayagain := [o] + s1.grayagain);
    BackLists(s, o);
    forall a | a in s'.heap && s'.mark[a] == Black ensures KidsMarked(s', a) { assert KidsMarked(s, a); }
    forall a | a in s'.heap ensures !Dead(s', a) { assert !Dead(s, a); }
    forall a | a in s'.gray || a in s'.grayagain ensures Queued(s', a) { if a != o { assert Queued(s, a); } }
  }

  // -------------------------------------------------------------- full cycles

  function Rank(g: GcState): nat
  {
    match g
    case GCSpropagate => 7
    case GCSatomic => 6
    case GCSswpallgc => 5
    case GCSswpfinobj => 4
    case GCSswptobefnz => 3
    case GCSswpend => 2
    case GCScallfin => 1
    case GCSpause => 0
  }

  ghost function Unswept(s: State): nat
  {
    if s.gcstate.GCSswpallgc? && 0 <= s.sweepgc <= |s.allgc| then 1 + |s.allgc| - s.sweepgc else 0
  }

  lemma {:induction false} SweepProgress(s: State, p: nat, count: nat)
    requires p <= |s.allgc|
    ensures var s' := SweepList(s, p, count);
      s'.sweepgc == NOSWEEP || (s'.sweepgc < |s'.allgc| && |s'.allgc| - s'.sweepgc == |s.allgc| - p - count)
    decreases count
  {
    if p < |s.allgc| && count > 0 {
      if Dead(s, s.allgc[p]) { SweepProgress(Free(s, p), p, count - 1); }
      else { SweepProgress(s.(mark := s.mark[s.allgc[p] := s.currentwhite]), p + 1, count - 1); }
    }
  }

  lemma {:induction false} StepKeeps(s: State, sweepmax: nat)
    requires Inv(s)
    ensures s.sweepgc <= |s.allgc| && Inv(SingleStep(s, sweepmax)) && Shrinks(s, SingleStep(s, sweepmax))
  {
    LiveClosed(s);
    StepSafe(s, sweepmax, Live(s));
  }

  lemma {:induction false} StepProgress(s: State, sweepmax: nat)
    requires Inv(s) && sweepmax > 0 && !s.gcstate.GCSpause? && s.sweepgc <= |s.allgc|
    ensures var s' := SingleStep(s, sweepmax);
      || Rank(s'.gcstate) < Rank(s.gcstate)
      || (s'.gcstate == s.gcstate && (|| Unswept(s') < Unswept(s)
          || (Unswept(s') == Unswept(s) && Whites(s'.mark) < Whites(s.mark))
          || (Unswept(s') == Unswept(s) && Whites(s'.mark) == Whites(s.mark) && |s'.gray| < |s.gray|)))
  {
    match s.gcstate
    case GCSpropagate =>
      assert s.gray[0] in s.gray;
    case GCSatomic => EnterSweepState(Atomic(PropagateAll(s)).(gcstate := GCSswpallgc), 0, 1);
    case GCSswpallgc =>
      if s.sweepgc >= 0 {
        SweepProgress(s, s.sweepgc, sweepmax);
        EnterSweepState(s, s.sweepgc, sweepmax);
      }
    case _ =>
  }

  lemma {:induction false} EnterSweepState(s: State, p: nat, count: nat)
    requires p <= |s.allgc|
    ensures SweepList(s, p, count).gcstate == s.gcstate
    decreases count
  {
    if p < |s.allgc| && count > 0 {
      if Dead(s, s.allgc[p]) { EnterSweepState(Free(s, p), p, count - 1); }
      else { EnterSweepState(s.(mark := s.mark[s.allgc[p] := s.currentwhite]), p + 1, count - 1); }
    }
  }

  /** `luaC_runtilstate` up to the pause. */
  function RunToPause(s: State, sweepmax: nat): (s': State)
    requires Inv(s) && sweepmax > 0
    ensures Inv(s') && s'.gcstate.GCSpause?
    decreases Rank(s.gcstate), Unswept(s), Whites(s.mark), |s.gray|
  {
    if s.gcstate.GCSpause? then s else
    StepKeeps(s, sweepmax);
    StepProgress(s, sweepmax);
    RunToPause(SingleStep(s, sweepmax), sweepmax)
  }

  /** `luaC_fullgc` */
  function FullGc(s: State, sweepmax: nat): (s': State)
    requires Inv(s) && sweepmax > 0
    ensures Inv(s') && s'.gcstate.GCSpause?
  {
    EnterSweepStep(s);
    var s1 := if KeepInvariant(s.gcstate) then EnterSweep(s) else s;
    var s2 := RunToPause(s1, sweepmax);
    StepKeeps(s2, sweepmax);
    RunToPause(SingleStep(s2, sweepmax), sweepmax)
  }

  /** Freeing garbage leaves every path from the roots intact. */
  lemma {:induction false} ShrinksReach(s: State, s': State, o: Ref)
    requires Shrinks(s, s') && Reach(s, o)
    ensures Reach(s', o)
  {
    var p :| Path(s.heap, p) && p[0] in Roots(s) && p[|p| - 1] == o;
    forall i | 0 <= i < |p| ensures p[i] in s'.heap {
      assert Path(s.heap, p[..i + 1]);
      assert Reach(s, p[i]);
    }
    assert Path(s'.heap, p);
  }

  lemma {:induction false} ShrinksTrans(s: State, s1: State, s2: State)
    requires Shrinks(s, s1) && Shrinks(s1, s2)
    ensures Shrinks(s, s2)
  {
    forall o | Reach(s, o) ensures o in s2.heap { ShrinksReach(s, s1, o); }
  }

  /** A smaller heap reaches no more. */
  lemma {:induction false} SmallerReach(s: State, s': State, o: Ref)
    requires Shrinks(s, s') && Reach(s', o)
    ensures Reach(s, o)
  {
    var p :| Path(s'.heap, p) && p[0] in Roots(s') && p[|p| - 1] == o;
    assert Path(s.heap, p);
  }

  lemma {:induction false} RunShrinks(s: State, sweepmax: nat, live: iset<Ref>)
    requires Inv(s) && sweepmax > 0 && ClosedSet(s.heap, live) && forall r :: r in Roots(s) ==> r in live
    ensures var s' := RunToPause(s, sweepmax); Shrinks(s, s') && (Tight(s, live) ==> Tight(s', live))
    decreases Rank(s.gcstate), Unswept(s), Whites(s.mark), |s.gray|
  {
    if s.gcstate.GCSpause? { SameHeapShrinks(s, s); }
    else {
      StepSafe(s, sweepmax, live);
      StepProgress(s, sweepmax);
      var s1 := SingleStep(s, sweepmax);
      forall a, b | a in live && Edge(s1.heap, a, b) ensures b in live { assert Edge(s.heap, a, b); }
      RunShrinks(s1, sweepmax, live);
      ShrinksTrans(s, s1, RunToPause(s, sweepmax));
    }
  }

  /** A full collection, started in any phase, leaves exactly the objects that
      are reachable, as they were. */
  lemma {:induction false} FullGcExact(s: State, sweepmax: nat)
    requires Inv(s) && sweepmax > 0
    ensures var s' := FullGc(s, sweepmax);
      Shrinks(s, s') && forall o :: o in s'.heap <==> Reach(s, o)
  {
    EnterSweepStep(s);
    var s1 := if KeepInvariant(s.gcstate) then EnterSweep(s) else s;
    assert Shrinks(s, s1) by {
      if KeepInvariant(s.gcstate) { AtomicShrinks(s, s, s1); } else { SameHeapShrinks(s, s); }
    }
    LiveClosed(s1);
    RunShrinks(s1, sweepmax, Live(s1));
    var s2 := RunToPause(s1, sweepmax);
    ShrinksTrans(s, s1, s2);
    CycleExact(s2, sweepmax);
    StepKeeps(s2, sweepmax);
    var s' := RunToPause(SingleStep(s2, sweepmax), sweepmax);
    ShrinksTrans(s, s2, s');
    forall o | o in s'.heap ensures Reach(s, o) { SmallerReach(s, s2, o); }
  }

  /** One cycle from pause to pause without the program running. */
  lemma {:induction false} CycleExact(s: State, sweepmax: nat)
    requires Inv(s) && s.gcstate.GCSpause? && sweepmax > 0
    ensures s.sweepgc <= |s.allgc| && Inv(SingleStep(s, sweepmax))
    ensures var s' := RunToPause(SingleStep(s, sweepmax), sweepmax);
      Shrinks(s, s') && forall o :: o in s'.heap <==> Reach(s, o)
  {
    var live := Live(s);
    LiveClosed(s);
    StepSafe(s, sweepmax, live);
    var s1 := SingleStep(s, sweepmax);
    forall a, b | a in live && Edge(s1.heap, a, b) ensures b in live { assert Edge(s.heap, a, b); }
    RunShrinks(s1, sweepmax, live);
    var s' := RunToPause(s1, sweepmax);
    ShrinksTrans(s, s1, s');
    AllWhite(s');
    forall o | o in s'.heap ensures Reach(s, o) { assert !Dead(s', o) && o in live; }
  }

  // --------------------------------------------------------------------- runs

  function Apply(s: State, op: Op): State
    requires Inv(s) && Enabled(s, op)
  {
    match op
    case New(o, b) => assert s.running in Roots(s); NewObj(s, o, b)
    case Store(dst, i, v, forward) => ReachAlive(s, dst); ReachAlive(s, v); DoStore(s, dst, i, v, forward)
    case Erase(dst, i) => ReachAlive(s, dst); DoErase(s, dst, i)
    case SetMt(mt) => s.(mt := mt)
    case Resume(th) => s.(running := th)
    case Collect(sweepmax) => StepKeeps(s, sweepmax); SingleStep(s, sweepmax)
    case FullCollect(sweepmax) => FullGc(s, sweepmax)
  }

  /** Whatever the program and the collector do, the invariant holds; and no
      step of the collector frees what is reachable. */
  lemma {:induction false} ApplySafe(s: State, op: Op)
    requires Inv(s) && Enabled(s, op)
    ensures Inv(Apply(s, op)) && (op.Collect? || op.FullCollect? ==> Shrinks(s, Apply(s, op)))
  {
    match op
    case New(o, b) => NewInv(s, o, b);
    case Store(dst, i, v, forward) => StoreInv(s, dst, i, v, forward);
    case Erase(dst, i) =>
      ReachAlive(s, dst);
      EraseInv(s, dst, i);
    case SetMt(mt) => RootsInv(s, s.(mt := mt));
    case Resume(th) => RootsInv(s, s.(running := th));
    case Collect(sweepmax) => StepKeeps(s, sweepmax);
    case FullCollect(sweepmax) => FullGcExact(s, sweepmax);
  }

  lemma {:induction false} StoreInv(s: State, o: Ref, i: nat, v: Ref, forward: bool)
    requires Inv(s) && Reach(s, o) && Reach(s, v)
    ensures o in s.heap && v in s.heap && Inv(DoStore(s, o, i, v, forward))
  {
    ReachAlive(s, o);
    ReachAlive(s, v);
    PutKids(s.heap[o], i, v);
    var s1 := s.(heap := s.heap[o := Put(s.heap[o], i, v)]);
    match s.heap[o]
    case Str =>
    case Thread(_) =>
      assert Proper(s, o);
      NoBarrierInv(s, s1, o, v);
    case Table(_) => if forward { BarrierInv(s, s1, o, v); } else { BarrierBackInv(s, s1, o, v); }
    case _ => BarrierInv(s, s1, o, v);
  }

  lemma {:induction false} EraseInv(s: State, o: Ref, i: nat)
    requires Inv(s) && o in s.heap && !Dead(s, o)
    ensures Inv(DoErase(s, o, i))
  {
    DropKids(s.heap[o], i);
    var s1 := DoErase(s, o, i);
    TouchedFine(s, s1, o, o);
    if KeepInvariant(s.gcstate) {
      EraseTri(s, s1, o);
      forall x | x in s1.heap ensures !Dead(s1, x) { assert !Dead(s, x); }
    }
  }

  lemma {:induction false} EraseTri(s: State, s1: State, o: Ref)
    requires Basic(s) && TriColor(s) && Touched(s, s1, o, o) && s1.mark.Keys == s1.heap.Keys
    requires forall k :: k in Kids(s1.heap[o]) ==> k in Kids(s.heap[o])
    ensures TriColor(s1)
  {
    forall a | a in s1.heap && s1.mark[a] == Black ensures KidsMarked(s1, a) { assert KidsMarked(s, a); }
    forall a | a in s1.gray || a in s1.grayagain ensures Queued(s1, a) { assert Queued(s, a); }
  }

  lemma {:induction false} RootsReach(s: State)
    ensures Reach(s, s.mainthread) && Reach(s, s.registry) && Reach(s, s.running) && forall r :: r in s.mt ==>
      Reach(s, r)
  {
    forall r | r in Roots(s) ensures Reach(s, r) { ReachRoot(s, r); }
    assert s.mainthread in Roots(s) && s.registry in Roots(s) && s.running in Roots(s);
    assert forall r :: r in s.mt ==> r in Roots(s);
  }

  /** Global metatables and the running thread change without a barrier. */
  lemma {:induction false} RootsInv(s: State, s': State)
    requires Inv(s) && s' == s.(mt := s'.mt, running := s'.running)
    requires s'.mt == s.mt || forall r :: r in s'.mt ==> Reach(s, r)
    requires s'.running == s.running || (Reach(s, s'.running) && s'.running in s.heap && s.heap[s'.running].Thread?)
    ensures Inv(s')
  {
    RootsReach(s);
    forall r | r in Roots(s') ensures r in s'.heap && !Dead(s', r) { ReachAlive(s, r); }
    forall x | x in s'.heap ensures Proper(s', x) { assert Proper(s, x); }
    if KeepInvariant(s.gcstate) { SameTri(s, s'); }
  }

  /** The tri-colour invariant does not mention the other roots. */
  lemma {:induction false} SameTri(s: State, s': State)
    requires Basic(s) && TriColor(s) && NoDead(s) && s' == s.(mt := s'.mt, running := s'.running)
    ensures TriColor(s') && NoDead(s')
  {
    forall a | a in s'.heap && s'.mark[a] == Black ensures KidsMarked(s', a) { assert KidsMarked(s, a); }
    forall a | a in s'.gray || a in s'.grayagain ensures Queued(s', a) { assert Queued(s, a); }
    forall x | x in s'.heap ensures !Dead(s', x) { assert !Dead(s, x); }
  }

  /** A run: every operation is one the program can do where it does it. */
  ghost predicate IsRun(run: seq<State>, ops: seq<Op>)
  {
    && |run| == |ops| + 1 && Inv(run[0])
    && forall i, j :: 0 <= i < |ops| && j == i + 1 ==> Transition(run[i], ops[i], run[j])
  }

  ghost predicate Transition(s: State, op: Op, s': State)
  {
    Inv(s) ==> (Enabled(s, op) && s' == Apply(s, op))
  }

  /** In every state of every run: the invariant of the phase holds (while
      marking, no black object points to a white one), every reachable object
      is there, and the collector's steps freed nothing reachable. */
  lemma {:induction false} RunSafe(run: seq<State>, ops: seq<Op>, k: nat)
    requires IsRun(run, ops) && k < |run|
    ensures Inv(run[k])
    ensures KeepInvariant(run[k].gcstate) ==>
      forall a, b :: a in run[k].heap && run[k].mark[a] == Black && Edge(run[k].heap, a, b) ==> !IsWhite(run[k], b)
    ensures forall o :: Reach(run[k], o) ==> o in run[k].heap && !Dead(run[k], o)
    ensures k > 0 && (ops[k - 1].Collect? || ops[k - 1].FullCollect?) ==> Shrinks(run[k - 1], run[k])
  {
    if k > 0 {
      RunSafe(run, ops, k - 1);
      assert Transition(run[k - 1], ops[k - 1], run[k]);
      ApplySafe(run[k - 1], ops[k - 1]);
    }
    forall o | Reach(run[k], o) ensures o in run[k].heap && !Dead(run[k], o) { ReachAlive(run[k], o); }
  }

  /** The state of a new Lua universe (`lua_newstate`) satisfies the invariant. */
  function InitState(mainthread: Ref, registry: Ref): State
  {
    State(map[mainthread := Thread([]), registry := Table([mainthread])], map[mainthread := White0, registry := White0],
          [registry], [], [], GCSpause, White0, NOSWEEP, mainthread, registry, [], mainthread)
  }

  lemma {:induction false} InitInv(mainthread: Ref, registry: Ref)
    requires mainthread != registry
    ensures Inv(InitState(mainthread, registry))
  {
    var s := InitState(mainthread, registry);
    forall r | r in Roots(s) ensures r in s.heap && !Dead(s, r) { assert r == mainthread || r == registry; }
  }
}
