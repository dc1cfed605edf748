/** The collector as lgc.c runs it: fields updated in place by loops.  Every
    method leaves the state its specification in `LuaGc` gives, and keeps the
    invariant. */
module LuaGcMachine {
  import opened Common
  import opened LuaGc
  import opened LuaGcSafe
  import opened LuaGcRun

  class GlobalState {
    var heap: map<Ref, Obj>
    var mark: map<Ref, Color>
    var allgc: seq<Ref>
    var gray: seq<Ref>
    var grayagain: seq<Ref>
    var gcstate: GcState
    var currentwhite: Color
    var sweepgc: int
    var mainthread: Ref
    var registry: Ref
    var mt: seq<Ref>
    var running: Ref

    function Abs(): State
      reads this
    {
      State(heap, mark, allgc, gray, grayagain, gcstate, currentwhite, sweepgc, mainthread, registry, mt, running)
    }

    ghost predicate Valid()
      reads this
    {
      Inv(Abs())
    }

    constructor (mainthread: Ref, registry: Ref)
      requires mainthread != registry
      ensures Abs() == InitState(mainthread, registry) && Valid()
    {
      heap := map[mainthread := Thread([]), registry := Table([mainthread])];
      mark := map[mainthread := White0, registry := White0];
      allgc, gray, grayagain := [registry], [], [];
      gcstate, currentwhite, sweepgc := GCSpause, White0, NOSWEEP;
      this.mainthread, this.registry, mt, running := mainthread, registry, [], mainthread;
      InitInv(mainthread, registry);
    }

    /** `reallymarkobject`: userdata chains are followed by a loop. */
    method ReallyMarkObject(obj: Ref)
      requires IsWhite(Abs(), obj) && obj in heap
      modifies this
      ensures Abs() == ReallyMark(old(Abs()), obj)
      decreases Whites(mark), 1
    {
      ghost var s0 := Abs();
      var o := Some(obj);
      while o.Some?
        invariant o.Some? ==> IsWhite(Abs(), o.v) && o.v in heap && ReallyMark(Abs(), o.v) == ReallyMark(s0, obj)
        invariant o.None? ==> Abs() == ReallyMark(s0, obj)
        invariant Whites(mark) <= Whites(s0.mark)
        decreases o.Some?, Whites(mark)
      {
        var x := o.v;
        ghost var s := Abs();
        FewerWhites(mark, x, Gray);
        mark := mark[x := Gray];
        match heap[x] {
          case Str =>
            mark := mark[x := Black];
            assert Abs() == ReallyMark(s, x);
            o := None;
          case Udata(meta, user) =>
            ReallyUdata(s, x);
            MarkObjectN(meta);
            NoMoreWhites(mark, x);
            mark := mark[x := Black];
            o := if user.Some? && user.v in heap && user.v in mark && White(mark[user.v]) then user else None;
          case _ =>
            gray := [x] + gray;
            assert Abs() == ReallyMark(s, x);
            o := None;
        }
      }
    }

    /** `markobjectN` */
    method MarkObjectN(o: Opt<Ref>)
      modifies this
      ensures Abs() == MarkOpt(old(Abs()), o)
      decreases Whites(mark), 2
    {
      if o.Some? && o.v in heap && o.v in mark && White(mark[o.v]) {
        ReallyMarkObject(o.v);
      }
    }

    method MarkObjects(os: seq<Ref>)
      modifies this
      ensures Abs() == MarkAll(old(Abs()), os)
    {
      ghost var s0 := Abs();
      for i := 0 to |os|
        invariant MarkAll(Abs(), os[i..]) == MarkAll(s0, os)
      {
        assert os[i..][1..] == os[i + 1..];
        MarkObjectN(Some(os[i]));
      }
    }

    /** `propagatemark` */
    method PropagateOne()
      requires gray != [] && Queued(Abs(), gray[0])
      modifies this
      ensures Abs() == PropagateMark(old(Abs()))
    {
      var o := gray[0];
      ghost var s := Abs();
      mark := mark[o := Black];
      gray := gray[1..];
      if heap[o].Thread? {
        grayagain := [o] + grayagain;
        mark := mark[o := Gray];
        assert mark == s.mark[o := Gray];
      }
      TraverseSpec(s, Abs());
      MarkObjects(Kids(heap[o]));
    }

    /** `propagateall` */
    method PropagateAllGray()
      requires PropagateAll(Abs()).gray == []
      modifies this
      ensures Abs() == PropagateAll(old(Abs())) && gray == []
    {
      while gray != []
        invariant PropagateAll(Abs()) == PropagateAll(old(Abs()))
        decreases Whites(mark), |gray|
      {
        assert Queued(Abs(), gray[0]);
        PropagateOne();
      }
    }

    /** `atomic` */
    method AtomicPhase()
      requires PropagateAll(MarkAll(Abs(), [running, registry] + mt)).gray == []
      requires var s1 := PropagateAll(MarkAll(Abs(), [running, registry] + mt));
        PropagateAll(s1.(gray := grayagain)).gray == []
      modifies this
      ensures Abs() == Atomic(old(Abs()))
    {
      var saved := grayagain;
      MarkObjects([running, registry] + mt);
      PropagateAllGray();
      gray := saved;
      PropagateAllGray();
      currentwhite := Other(currentwhite);
    }

    /** `sweeplist` */
    method SweepFrom(start: nat, n: nat)
      requires start <= |allgc|
      modifies this
      ensures Abs() == SweepList(old(Abs()), start, n)
    {
      ghost var s0 := Abs();
      var p: nat, count: nat := start, n;
      while p < |allgc| && count > 0
        invariant p <= |allgc| && SweepList(Abs(), p, count) == SweepList(s0, start, n)
        decreases count
      {
        var curr := allgc[p];
        if curr in mark && mark[curr] == Other(currentwhite) {
          allgc := allgc[..p] + allgc[p + 1..];
          heap := heap - {curr};
          mark := mark - {curr};
        } else {
          mark := mark[curr := currentwhite];
          p := p + 1;
        }
        count := count - 1;
      }
      sweepgc := if p == |allgc| then NOSWEEP else p;
    }

    /** `entersweep` */
    method EnterSweepPhase()
      modifies this
      ensures Abs() == EnterSweep(old(Abs()))
    {
      gcstate := GCSswpallgc;
      SweepFrom(0, 1);
    }

    /** `restartcollection` */
    method RestartCollection()
      modifies this
      ensures Abs() == Restart(old(Abs()))
    {
      gray, grayagain := [], [];
      MarkObjects([mainthread, registry] + mt);
    }

    /** The phases of `singlestep` in which objects are marked. */
    method MarkStep(sweepmax: nat)
      requires Valid() && (gcstate.GCSpause? || KeepInvariant(gcstate))
      modifies this
      ensures old(sweepgc) <= |old(allgc)| && Abs() == SingleStep(old(Abs()), sweepmax)
    {
      if gcstate.GCSpause? {
        RestartCollection();
        gcstate := GCSpropagate;
      } else if gcstate.GCSpropagate? {
        assert gray[0] in gray;
        PropagateOne();
        if gray == [] { gcstate := GCSatomic; }
      } else {
        AtomicEmpties(Abs());
        PropagateAllGray();
        AtomicPhase();
        EnterSweepPhase();
      }
    }

    /** The other phases of `singlestep`. */
    method SweepStep(sweepmax: nat)
      requires Valid() && !gcstate.GCSpause? && !KeepInvariant(gcstate)
      modifies this
      ensures old(sweepgc) <= |old(allgc)| && Abs() == SingleStep(old(Abs()), sweepmax)
    {
      match gcstate {
        case GCSswpallgc =>
          if sweepgc >= 0 { SweepFrom(sweepgc, sweepmax); }
          if sweepgc < 0 { gcstate := GCSswpfinobj; }
        case GCSswpfinobj => gcstate := GCSswptobefnz;
        case GCSswptobefnz => gcstate := GCSswpend;
        case GCSswpend =>
          mark := mark[mainthread := currentwhite];
          gcstate := GCScallfin;
        case GCScallfin => gcstate := GCSpause;
      }
    }

    /** `singlestep` */
    method Single(sweepmax: nat)
      requires Valid()
      modifies this
      ensures old(sweepgc) <= |old(allgc)| && Abs() == SingleStep(old(Abs()), sweepmax)
      ensures Valid() && Shrinks(old(Abs()), Abs())
    {
      StepKeeps(Abs(), sweepmax);
      if gcstate.GCSpause? || KeepInvariant(gcstate) { MarkStep(sweepmax); } else { SweepStep(sweepmax); }
    }

    /** `luaC_runtilstate` up to the pause */
    method RunTilPause(sweepmax: nat)
      requires Valid() && sweepmax > 0
      modifies this
      ensures Valid() && Abs() == RunToPause(old(Abs()), sweepmax)
    {
      while !gcstate.GCSpause?
        invariant Valid() && RunToPause(Abs(), sweepmax) == RunToPause(old(Abs()), sweepmax)
        decreases Rank(gcstate), Unswept(Abs()), Whites(mark), |gray|
      {
        StepKeeps(Abs(), sweepmax);
        StepProgress(Abs(), sweepmax);
        Single(sweepmax);
      }
    }

    /** `luaC_fullgc`: afterwards the heap holds exactly what was reachable. */
    method FullCollection(sweepmax: nat)
      requires Valid() && sweepmax > 0
      modifies this
      ensures Valid() && gcstate.GCSpause?
      ensures forall o :: o in heap <==> Reach(old(Abs()), o)
      ensures forall o :: o in heap ==> o in old(heap) && heap[o] == old(heap)[o]
    {
      ghost var s := Abs();
      FullGcExact(s, sweepmax);
      EnterSweepStep(s);
      if KeepInvariant(gcstate) { EnterSweepPhase(); }
      RunTilPause(sweepmax);
      Single(sweepmax);
      RunTilPause(sweepmax);
      assert Abs() == FullGc(s, sweepmax);
    }

    /** `luaC_newobj` */
    method LinkObject(o: Ref, b: Obj)
      requires running in heap && heap[running].Thread?
      modifies this
      ensures Abs() == NewObj(old(Abs()), o, b)
    {
      mark := mark[o := currentwhite];
      heap := heap[o := b][running := Thread(heap[running].refs + [o])];
      allgc := [o] + allgc;
      if sweepgc > 0 { sweepgc := sweepgc + 1; }
    }

    /** The program makes a new object on the stack of the running thread. */
    method NewObject(o: Ref, b: Obj)
      requires Valid() && o !in heap && Empty(b)
      modifies this
      ensures Valid() && Abs() == Apply(old(Abs()), New(o, b))
    {
      NewInv(Abs(), o, b);
      assert running in Roots(Abs());
      LinkObject(o, b);
    }

    /** `luaC_barrier`; the assertion of `luaC_barrier_` is that the collector
        marks or sweeps. */
    method ForwardBarrier(o: Ref, v: Ref)
      requires o in mark && v in mark && v in heap
      requires mark[o] == Black && White(mark[v]) ==> KeepInvariant(gcstate) || IsSweepPhase(gcstate)
      modifies this
      ensures Abs() == Barrier(old(Abs()), o, v)
    {
      if mark[o] == Black && White(mark[v]) {
        if KeepInvariant(gcstate) {
          ReallyMarkObject(v);
        } else {
          assert IsSweepPhase(gcstate);
          mark := mark[o := currentwhite];
        }
      }
    }

    /** `luaC_barrierback` */
    method BackwardBarrier(o: Ref, v: Ref)
      requires o in mark && v in mark
      modifies this
      ensures Abs() == BarrierBack(old(Abs()), o, v)
    {
      if mark[o] == Black && White(mark[v]) {
        mark := mark[o := Gray];
        grayagain := [o] + grayagain;
      }
    }

    /** A reference is stored, and the barrier of the object's kind called. */
    method StoreAt(o: Ref, i: nat, v: Ref, forward: bool)
      requires o in heap && v in heap && mark.Keys == heap.Keys
      requires mark[o] == Black && White(mark[v]) ==> KeepInvariant(gcstate) || IsSweepPhase(gcstate)
      modifies this
      ensures Abs() == DoStore(old(Abs()), o, i, v, forward)
    {
      var kind := heap[o];
      if !kind.Str? {
        heap := heap[o := Put(kind, i, v)];
        if kind.Table? && !forward { BackwardBarrier(o, v); }
        else if !kind.Thread? { ForwardBarrier(o, v); }
      }
    }

    /** The program stores what it can reach into what it can reach. */
    method StoreRef(o: Ref, i: nat, v: Ref, forward: bool)
      requires Valid() && Reach(Abs(), o) && Reach(Abs(), v)
      modifies this
      ensures Valid() && Abs() == Apply(old(Abs()), Store(o, i, v, forward))
    {
      StoreInv(Abs(), o, i, v, forward);
      StoreAsserts(Abs(), o, v);
      StoreAt(o, i, v, forward);
    }
  }

  lemma {:induction false} FewerWhites(m: map<Ref, Color>, x: Ref, c: Color)
    requires x in m && White(m[x]) && !White(c)
    ensures Whites(m[x := c]) < Whites(m)
  {
    assert x in Whites(m) && x !in Whites(m[x := c]) && Whites(m[x := c]) <= Whites(m);
  }

  lemma {:induction false} NoMoreWhites(m: map<Ref, Color>, x: Ref)
    requires x in m
    ensures Whites(m[x := Black]) <= Whites(m)
  {
  }

  /** The state in which the children of the first gray object are marked. */
  lemma {:induction false} TraverseSpec(s: State, s': State)
    requires s.gray != [] && Queued(s, s.gray[0])
    requires s' ==
      if s.heap[s.gray[0]].Thread? then s.(gray := s.gray[1..], mark := s.mark[s.gray[0] := Gray],
        grayagain := [s.gray[0]] + s.grayagain)
                   else s.(gray := s.gray[1..], mark := s.mark[s.gray[0] := Black])
    ensures MarkAll(s', Kids(s.heap[s.gray[0]])) == PropagateMark(s)
  {
  }

  lemma {:induction false} ReallyUdata(s: State, x: Ref)
    requires IsWhite(s, x) && x in s.heap && s.heap[x].Udata?
    ensures var s2 := MarkOpt(s.(mark := s.mark[x := Gray]), s.heap[x].meta);
      ReallyMark(s, x) == MarkOpt(s2.(mark := s2.mark[x := Black]), s.heap[x].user)
  {
  }

  /** A forward barrier is only needed while marking or sweeping. */
  lemma {:induction false} StoreAsserts(s: State, o: Ref, v: Ref)
    requires Inv(s) && o in s.heap && v in s.heap
    ensures s.mark[o] == Black && White(s.mark[v]) ==> KeepInvariant(s.gcstate) || IsSweepPhase(s.gcstate)
  {
    if !KeepInvariant(s.gcstate) && !IsSweepPhase(s.gcstate) { AllWhite(s); }
  }

  /** In the atomic step every gray list is emptied. */
  lemma {:induction false} AtomicEmpties(s: State)
    requires Inv(s) && s.gcstate.GCSatomic?
    ensures PropagateAll(s).gray == []
    ensures var s0 := PropagateAll(s); var s1 := PropagateAll(MarkAll(s0, [s0.running, s0.registry] + s0.mt));
      s1.gray == [] && PropagateAll(s1.(gray := s0.grayagain)).gray == []
  {
    var live := iset o | o in s.heap;
    TriMarking(s);
    HeapWhole(s);
    PropagateAllSpec(s, live);
    var s0 := PropagateAll(s);
    var roots := [s0.running, s0.registry] + s0.mt;
    forall r | r in roots ensures r in s0.heap { assert r in Roots(s); }
    MarkAllSpec(s0, roots, s0.grayagain, {}, {}, live);
    var v := PropagateDoneSpec(MarkAll(s0, roots), s0.grayagain, {}, live);
    var s1 := PropagateAll(MarkAll(s0, roots));
    SwapSpec(s1, s0.grayagain, v);
    var v' := PropagateDoneSpec(s1.(gray := s0.grayagain), [], v, live);
  }
}
