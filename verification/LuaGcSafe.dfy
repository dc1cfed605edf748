/** What every step of the collector and of the program keeps: while marking no
    black object points to a white one, and nothing that can be reached is ever
    freed. */
module LuaGcSafe {
  import opened Common
  import opened LuaGc

  // ------------------------------------------------------------- reachability

  predicate Edge(heap: map<Ref, Obj>, a: Ref, b: Ref)
  {
    a in heap && b in Kids(heap[a])
  }

  ghost predicate Path(heap: map<Ref, Obj>, p: seq<Ref>)
  {
    |p| > 0 && forall i, j :: 0 <= i < |p| && j == i + 1 < |p| ==> Edge(heap, p[i], p[j])
  }

  function Roots(s: State): seq<Ref>
  {
    [s.mainthread, s.registry, s.running] + s.mt
  }

  ghost predicate Reach(s: State, o: Ref)
  {
    exists p :: Path(s.heap, p) && p[0] in Roots(s) && p[|p| - 1] == o
  }

  /** A set of objects that no reference leaves. */
  ghost predicate ClosedSet(heap: map<Ref, Obj>, live: iset<Ref>)
  {
    forall a, b :: a in live && Edge(heap, a, b) ==> b in live
  }

  lemma {:induction false} ReachRoot(s: State, o: Ref)
    requires o in Roots(s)
    ensures Reach(s, o)
  {
    assert Path(s.heap, [o]);
  }

  lemma {:induction false} ReachEdge(s: State, a: Ref, b: Ref)
    requires Reach(s, a) && Edge(s.heap, a, b)
    ensures Reach(s, b)
  {
    var p :| Path(s.heap, p) && p[0] in Roots(s) && p[|p| - 1] == a;
    assert Path(s.heap, p + [b]);
  }

  /** Whatever is reachable lies in every closed set that holds the roots. */
  lemma {:induction false} ReachIn(s: State, live: iset<Ref>, o: Ref)
    requires ClosedSet(s.heap, live) && (forall r :: r in Roots(s) ==> r in live) && Reach(s, o)
    ensures o in live
  {
    var p :| Path(s.heap, p) && p[0] in Roots(s) && p[|p| - 1] == o;
    PathIn(s.heap, live, p, |p| - 1);
  }

  lemma {:induction false} PathIn(heap: map<Ref, Obj>, live: iset<Ref>, p: seq<Ref>, i: nat)
    requires Path(heap, p) && ClosedSet(heap, live) && p[0] in live && i < |p|
    ensures p[i] in live
  {
    if i > 0 {
      PathIn(heap, live, p, i - 1);
      assert Edge(heap, p[i - 1], p[i]);
    }
  }

  ghost function Live(s: State): iset<Ref>
  {
    iset o | Reach(s, o)
  }

  lemma {:induction false} LiveClosed(s: State)
    ensures ClosedSet(s.heap, Live(s)) && forall r :: r in Roots(s) ==> r in Live(s)
  {
    forall a, b | a in Live(s) && Edge(s.heap, a, b) ensures b in Live(s) { ReachEdge(s, a, b); }
    forall r | r in Roots(s) ensures r in Live(s) { ReachRoot(s, r); }
  }

  // --------------------------------------------------------------- invariants

  ghost predicate NoDup(q: seq<Ref>)
  {
    forall i, j :: 0 <= i < j < |q| ==> q[i] != q[j]
  }

  /** How often `x` is in two lists. */
  function Count(a: seq<Ref>, b: seq<Ref>, x: Ref): nat
  {
    multiset(a)[x] + multiset(b)[x]
  }

  /** No object is in the two lists twice. */
  ghost predicate Once(a: seq<Ref>, b: seq<Ref>)
  {
    forall x :: Count(a, b, x) <= 1
  }

  lemma CountIn(a: seq<Ref>, b: seq<Ref>)
    ensures forall x :: Count(a, b, x) > 0 <==> x in a || x in b
  {
  }

  lemma CountPush(a: seq<Ref>, b: seq<Ref>, o: Ref)
    ensures forall x :: Count([o] + a, b, x) == Count(a, b, x) + if x == o then 1 else 0
    ensures forall x :: Count(a, [o] + b, x) == Count(a, b, x) + if x == o then 1 else 0
  {
    assert multiset([o] + a) == multiset{o} + multiset(a);
    assert multiset([o] + b) == multiset{o} + multiset(b);
  }

  lemma CountPop(a: seq<Ref>, b: seq<Ref>)
    requires a != []
    ensures forall x :: Count(a, b, x) == Count(a[1..], b, x) + if x == a[0] then 1 else 0
  {
    CountPush(a[1..], b, a[0]);
    assert a == [a[0]] + a[1..];
  }

  /** Form of the state in every phase. */
  ghost predicate Basic(s: State)
  {
    && s.mark.Keys == s.heap.Keys && White(s.currentwhite)
    && NoDup(s.allgc) && s.mainthread !in s.allgc
    && (forall o :: o in s.heap <==> o == s.mainthread || o in s.allgc)
    && (forall r :: r in Roots(s) ==> r in s.heap)
    && s.heap[s.mainthread].Thread? && s.heap[s.running].Thread?
    && (forall o :: o in s.heap ==> Proper(s, o))
  }

  /** Threads are never black, strings and userdata never left gray. */
  ghost predicate Proper(s: State, o: Ref)
    requires o in s.heap && s.mark.Keys == s.heap.Keys
  {
    (s.heap[o].Thread? ==> s.mark[o] != Black) && (!IsNode(s.heap[o]) ==> s.mark[o] != Gray)
  }

  /** Live references lead to live objects; the roots are live. */
  ghost predicate Intact(s: State)
    requires s.mark.Keys == s.heap.Keys
  {
    && (forall a, b :: a in s.heap && !Dead(s, a) && Edge(s.heap, a, b) ==> b in s.heap && !Dead(s, b))
    && (forall r :: r in Roots(s) ==> !Dead(s, r))
  }

  ghost predicate NoDead(s: State)
  {
    forall o :: o in s.heap ==> !Dead(s, o)
  }

  ghost predicate KidsMarked(s: State, a: Ref)
    requires a in s.heap
  {
    forall b :: b in Kids(s.heap[a]) ==> !IsWhite(s, b)
  }

  /** The tri-colour invariant: no black object points to a white one, and
      every gray object is in one gray list, once. */
  ghost predicate TriColor(s: State)
    requires s.mark.Keys == s.heap.Keys
  {
    && (forall a :: a in s.heap && s.mark[a] == Black ==> KidsMarked(s, a))
    && (forall a :: a in s.heap && s.mark[a] == Gray ==> a in s.gray || a in s.grayagain)
    && Once(s.gray, s.grayagain)
    && (forall a :: a in s.gray || a in s.grayagain ==> Queued(s, a))
    && !IsWhite(s, s.mainthread)
  }

  /** The first `n` objects of the list have been swept. */
  ghost predicate Swept(s: State, n: int)
    requires n <= |s.allgc|
  {
    forall i :: 0 <= i < n ==> s.allgc[i] in s.mark && s.mark[s.allgc[i]] == s.currentwhite
  }

  /** Number of objects known to be swept. */
  function Done(s: State): int
  {
    if s.sweepgc < 0 then |s.allgc| else s.sweepgc
  }

  ghost predicate Phase(s: State)
    requires Basic(s)
  {
    match s.gcstate
    case GCSpropagate => NoDead(s) && TriColor(s) && s.gray != [] && s.sweepgc == NOSWEEP
    case GCSatomic => NoDead(s) && TriColor(s) && s.sweepgc == NOSWEEP
    case GCSswpallgc => NOSWEEP <= s.sweepgc <= |s.allgc| && Swept(s, Done(s))
    case GCScallfin => Swept(s, |s.allgc|) && s.mark[s.mainthread] == s.currentwhite && s.sweepgc == NOSWEEP
    case GCSpause => Swept(s, |s.allgc|) && s.mark[s.mainthread] == s.currentwhite && s.sweepgc == NOSWEEP
    case _ => Swept(s, |s.allgc|) && s.sweepgc == NOSWEEP
  }

  ghost predicate Inv(s: State)
  {
    Basic(s) && Intact(s) && Phase(s)
  }

  /** Everything reachable is there and not about to be freed. */
  lemma {:induction false} ReachAlive(s: State, o: Ref)
    requires Basic(s) && Intact(s) && Reach(s, o)
    ensures o in s.heap && !Dead(s, o)
  {
    var live := iset a | a in s.heap && !Dead(s, a);
    ReachIn(s, live, o);
  }

  // ------------------------------------------------------------------ marking

  /** While marking: `rest` is the other gray list, `e` holds objects whose
      references are just being marked, `v` threads that are done for this cycle. */
  ghost predicate Marking(s: State, rest: seq<Ref>, e: set<Ref>, v: set<Ref>)
  {
    && s.mark.Keys == s.heap.Keys
    && Once(s.gray, rest)
    && (forall a :: a in s.gray || a in rest ==> Queued(s, a))
    && (forall a :: a in s.heap && a !in e ==> Visited(s, rest, v, a))
    && (forall a :: a in v ==> a in s.heap && !IsWhite(s, a) && KidsMarked(s, a))
    && (forall a :: a in e ==> !IsWhite(s, a))
  }

  ghost predicate Visited(s: State, rest: seq<Ref>, v: set<Ref>, a: Ref)
    requires s.mark.Keys == s.heap.Keys && a in s.heap
  {
    && Proper(s, a)
    && (s.mark[a] == Gray ==> a in s.gray || a in rest || a in v)
    && (s.mark[a] == Black ==> KidsMarked(s, a))
  }

  /** All references of the heap lead into the heap. */
  ghost predicate Whole(heap: map<Ref, Obj>)
  {
    forall a, b :: Edge(heap, a, b) ==> b in heap
  }

  /** Only objects of `live` have been marked. */
  ghost predicate Within(s: State, live: iset<Ref>)
  {
    forall a :: a in s.heap && !IsWhite(s, a) ==> a in live
  }

  /** Marking an object that waits in the gray list. */
  lemma {:induction false} PushSpec(s: State, o: Ref, rest: seq<Ref>, e: set<Ref>, v: set<Ref>)
    requires Marking(s, rest, e, v) && IsWhite(s, o) && o in s.heap && IsNode(s.heap[o])
    ensures Marking(s.(mark := s.mark[o := Gray], gray := [o] + s.gray), rest, e, v)
  {
    var s' := s.(mark := s.mark[o := Gray], gray := [o] + s.gray);
    CountIn(s.gray, rest);
    CountPush(s.gray, rest, o);
    assert !Queued(s, o);
    assert forall a :: a in s'.gray <==> a == o || a in s.gray;
    forall a | a in s'.heap && a !in e ensures Visited(s', rest, v, a) {
      assert Visited(s, rest, v, a);
      if a != o && s.mark[a] == Black { assert KidsMarked(s, a); }
    }
  }

  /** Setting the mark of an object that is being visited. */
  lemma {:induction false} PaintSpec(s: State, o: Ref, c: Color, rest: seq<Ref>, e: set<Ref>, v: set<Ref>)
    requires Marking(s, rest, e, v) && o in s.heap && !IsNode(s.heap[o]) && !White(c) && (IsWhite(s, o) || o in e)
    ensures Marking(s.(mark := s.mark[o := c]), rest, e + {o}, v)
  {
    var s' := s.(mark := s.mark[o := c]);
    forall a | a in s'.heap && a !in e + {o} ensures Visited(s', rest, v, a) {
      assert Visited(s, rest, v, a);
      if s.mark[a] == Black { assert KidsMarked(s, a); }
    }
  }

  lemma {:induction false} SettleSpec(s: State, o: Ref, rest: seq<Ref>, e: set<Ref>, v: set<Ref>)
    requires Marking(s, rest, e + {o}, v) && o in s.heap && Visited(s, rest, v, o)
    ensures Marking(s, rest, e, v)
  {
    forall a | a in s.heap && a !in e ensures Visited(s, rest, v, a) {
      if a != o { assert a !in e + {o}; }
    }
  }

  lemma {:induction false} MarkSpec(s: State, o: Ref, rest: seq<Ref>, e: set<Ref>, v: set<Ref>, live: iset<Ref>)
    requires Marking(s, rest, e, v) && Whole(s.heap) && IsWhite(s, o) && o in s.heap
    requires ClosedSet(s.heap, live) && o in live && Within(s, live)
    ensures Marking(ReallyMark(s, o), rest, e, v) && Within(ReallyMark(s, o), live)
    decreases Whites(s.mark), 0
  {
    match s.heap[o]
    case Str =>
      PaintSpec(s, o, Black, rest, e, v);
      SettleSpec(s.(mark := s.mark[o := Black]), o, rest, e, v);
    case Udata(meta, user) => UdataSpec(s, o, rest, e, v, live);
    case _ => PushSpec(s, o, rest, e, v);
  }

  lemma {:induction false} UdataSpec(s: State, o: Ref, rest: seq<Ref>, e: set<Ref>, v: set<Ref>, live: iset<Ref>)
    requires Marking(s, rest, e, v) && Whole(s.heap) && IsWhite(s, o) && o in s.heap && s.heap[o].Udata?
    requires ClosedSet(s.heap, live) && o in live && Within(s, live)
    ensures Marking(ReallyMark(s, o), rest, e, v) && Within(ReallyMark(s, o), live)
    decreases Whites(s.mark), 0, 0
  {
    var Udata(meta, user) := s.heap[o];
    var s1 := s.(mark := s.mark[o := Gray]);
    assert o in Whites(s.mark) && o !in Whites(s1.mark) && Whites(s1.mark) <= Whites(s.mark);
    assert meta.Some? ==> Edge(s.heap, o, meta.v);
    PaintSpec(s, o, Gray, rest, e, v);
    MarkOptSpec(s1, meta, rest, e + {o}, v, live);
    var s2 := MarkOpt(s1, meta);
    var s3 := s2.(mark := s2.mark[o := Black]);
    assert Whites(s3.mark) <= Whites(s1.mark);
    PaintSpec(s2, o, Black, rest, e + {o}, v);
    assert e + {o} + {o} == e + {o};
    UserSpec(s3, o, rest, e, v, live);
  }

  lemma {:induction false} UserSpec(s: State, o: Ref, rest: seq<Ref>, e: set<Ref>, v: set<Ref>, live: iset<Ref>)
    requires Marking(s, rest, e + {o}, v) && Whole(s.heap) && o in s.heap && s.heap[o].Udata? && s.mark[o] == Black
    requires s.heap[o].meta.Some? ==> !IsWhite(s, s.heap[o].meta.v)
    requires ClosedSet(s.heap, live) && o in live && Within(s, live)
    ensures var s' := MarkOpt(s, s.heap[o].user); Marking(s', rest, e, v) && Within(s', live)
    decreases Whites(s.mark), 2
  {
    var user := s.heap[o].user;
    assert user.Some? ==> Edge(s.heap, o, user.v);
    MarkOptSpec(s, user, rest, e + {o}, v, live);
    SettleSpec(MarkOpt(s, user), o, rest, e, v);
  }

  lemma {:induction false} MarkOptSpec(s: State, o: Opt<Ref>, rest: seq<Ref>, e: set<Ref>, v: set<Ref>, live: iset<Ref>)
    requires Marking(s, rest, e, v) && Whole(s.heap) && ClosedSet(s.heap, live) && Within(s, live)
    requires o.Some? ==> o.v in s.heap && o.v in live
    ensures Marking(MarkOpt(s, o), rest, e, v) && Within(MarkOpt(s, o), live)
    decreases Whites(s.mark), 1
  {
    if o.Some? && IsWhite(s, o.v) { MarkSpec(s, o.v, rest, e, v, live); }
  }

  lemma {:induction false} MarkAllSpec(s: State, os: seq<Ref>, rest: seq<Ref>, e: set<Ref>, v: set<Ref>,
      live: iset<Ref>)
    requires Marking(s, rest, e, v) && Whole(s.heap) && ClosedSet(s.heap, live) && Within(s, live)
    requires forall o :: o in os ==> o in s.heap && o in live
    ensures Marking(MarkAll(s, os), rest, e, v) && Within(MarkAll(s, os), live)
    ensures forall o :: o in os ==> !IsWhite(MarkAll(s, os), o)
    decreases |os|
  {
    if os != [] {
      MarkOptSpec(s, Some(os[0]), rest, e, v, live);
      MarkAllSpec(MarkOpt(s, Some(os[0])), os[1..], rest, e, v, live);
    }
  }

  // -------------------------------------------------------------- propagation

  /** Taking the first object out of the gray list. */
  lemma {:induction false} PopSpec(s: State, rest: seq<Ref>, v: set<Ref>, s': State)
    requires Marking(s, rest, {}, v) && s.gray != [] && Queued(s, s.gray[0]) && s'.heap == s.heap &&
      s'.gray == s.gray[1..]
    requires s'.mark == s.mark[s.gray[0] := Gray] || s'.mark == s.mark[s.gray[0] := Black]
    ensures Marking(s', rest, {s.gray[0]}, v)
  {
    var o := s.gray[0];
    CountPop(s.gray, rest);
    PopQueued(s, rest, v, s');
    forall a | a in s'.heap && a != o ensures Visited(s', rest, v, a) {
      assert Visited(s, rest, v, a);
      assert s.gray == [o] + s'.gray;
      if s.mark[a] == Black { assert KidsMarked(s, a); }
    }
  }

  lemma {:induction false} PopQueued(s: State, rest: seq<Ref>, v: set<Ref>, s': State)
    requires Marking(s, rest, {}, v) && s.gray != [] && Queued(s, s.gray[0]) && s'.heap == s.heap &&
      s'.gray == s.gray[1..]
    requires s'.mark == s.mark[s.gray[0] := Gray] || s'.mark == s.mark[s.gray[0] := Black]
    ensures forall a :: a in s'.gray || a in rest ==> Queued(s', a)
  {
    CountPop(s.gray, rest);
    CountIn(s'.gray, rest);
    CountIn(s.gray, rest);
    forall a | a in s'.gray || a in rest ensures Queued(s', a) {
      assert Count(s'.gray, rest, a) > 0 && a != s.gray[0];
      assert Queued(s, a);
    }
  }

  lemma {:induction false} PopAgain(s: State, rest: seq<Ref>, v: set<Ref>, s': State)
    requires Marking(s, rest, {}, v) && s.gray != [] && Queued(s, s.gray[0]) && s'.heap == s.heap &&
      s'.gray == s.gray[1..]
    requires s'.mark == s.mark[s.gray[0] := Gray] && s.heap[s.gray[0]].Thread?
    ensures Marking(s', [s.gray[0]] + rest, {}, v)
  {
    var o := s.gray[0];
    assert s'.mark == s.mark;
    CountPop(s.gray, rest);
    CountPush(s'.gray, rest, o);
    assert s.gray == [o] + s'.gray;
    forall a | a in s'.gray || a in [o] + rest ensures Queued(s', a) { assert a in s.gray || a in rest; }
    forall a | a in s'.heap ensures Visited(s', [o] + rest, v, a) {
      assert Visited(s, rest, v, a);
      if s.mark[a] == Black { assert KidsMarked(s, a); }
    }
  }

  lemma {:induction false} DoneThread(s: State, o: Ref, rest: seq<Ref>, v: set<Ref>)
    requires Marking(s, rest, {o}, v) && o in s.heap && s.heap[o].Thread? && s.mark[o] == Gray && KidsMarked(s, o)
    ensures Marking(s, rest, {}, v + {o})
  {
    forall a | a in s.heap ensures Visited(s, rest, v + {o}, a) {
      if a != o { assert Visited(s, rest, v, a); }
    }
  }

  /** Traversing an object leaves it done: black, or a thread that goes to the
      list `grayagain` or, in the atomic phase, to the threads that are done. */
  lemma {:induction false} PropagateSpec(s: State, rest: seq<Ref>, v: set<Ref>, live: iset<Ref>, again: bool)
    requires Marking(s, rest, {}, v) && Whole(s.heap) && ClosedSet(s.heap, live) && Within(s, live)
    requires s.gray != [] && Queued(s, s.gray[0])
    ensures var o := s.gray[0]; var th := s.heap[o].Thread?;
      var s' := PropagateMark(s);
      Marking(s', if th && again then [o] + rest else rest, {}, if th && !again then v + {o} else v) && Within(s', live)
    ensures s.heap[s.gray[0]].Thread? ==> PropagateMark(s).grayagain == [s.gray[0]] + s.grayagain
    ensures !s.heap[s.gray[0]].Thread? ==> PropagateMark(s).grayagain == s.grayagain
  {
    var o := s.gray[0];
    var kids := Kids(s.heap[o]);
    assert o in live && !IsWhite(s, o);
    forall k | k in kids ensures k in s.heap && k in live { assert Edge(s.heap, o, k); }
    var s1 := s.(gray := s.gray[1..]);
    if s.heap[o].Thread? {
      var s2 := s1.(mark := s.mark[o := Gray], grayagain := [o] + s.grayagain);
      if again {
        PopAgain(s, rest, v, s2);
        MarkAllSpec(s2, kids, [o] + rest, {}, v, live);
      } else {
        PopSpec(s, rest, v, s2);
        MarkAllSpec(s2, kids, rest, {o}, v, live);
        DoneThread(MarkAll(s2, kids), o, rest, v);
      }
    } else {
      var s2 := s1.(mark := s.mark[o := Black]);
      PopSpec(s, rest, v, s2);
      MarkAllSpec(s2, kids, rest, {o}, v, live);
      SettleSpec(MarkAll(s2, kids), o, rest, {}, v);
    }
  }

  /** `propagateall` before the atomic phase. */
  lemma {:induction false} PropagateAllSpec(s: State, live: iset<Ref>)
    requires Marking(s, s.grayagain, {}, {}) && Whole(s.heap) && ClosedSet(s.heap, live) && Within(s, live)
    ensures var s' := PropagateAll(s); s'.gray == [] && Marking(s', s'.grayagain, {}, {}) && Within(s', live)
    decreases Whites(s.mark), |s.gray|
  {
    if s.gray != [] {
      assert s.gray[0] in s.gray;
      PropagateSpec(s, s.grayagain, {}, live, true);
      PropagateAllSpec(PropagateMark(s), live);
    }
  }

  /** `propagateall` in the atomic phase. */
  lemma {:induction false} PropagateDoneSpec(s: State, rest: seq<Ref>, v: set<Ref>, live: iset<Ref>)
    returns (v': set<Ref>)
    requires Marking(s, rest, {}, v) && Whole(s.heap) && ClosedSet(s.heap, live) && Within(s, live)
    ensures var s' := PropagateAll(s); s'.gray == [] && Marking(s', rest, {}, v') && Within(s', live)
    decreases Whites(s.mark), |s.gray|
  {
    v' := v;
    if s.gray != [] {
      assert s.gray[0] in s.gray;
      PropagateSpec(s, rest, v, live, false);
      v' := PropagateDoneSpec(PropagateMark(s), rest, if s.heap[s.gray[0]].Thread? then v + {s.gray[0]} else v, live);
    }
  }

  /** The other gray list becomes the gray list. */
  lemma {:induction false} SwapSpec(s: State, rest: seq<Ref>, v: set<Ref>)
    requires Marking(s, rest, {}, v) && s.gray == []
    ensures Marking(s.(gray := rest), [], {}, v)
  {
    var s' := s.(gray := rest);
    forall x ensures Count(rest, [], x) <= 1 { assert Count([], rest, x) <= 1; }
    forall a | a in s'.heap ensures Visited(s', [], v, a) {
      assert Visited(s, rest, v, a);
      if s.mark[a] == Black { assert KidsMarked(s, a); }
    }
    forall a | a in v ensures a in s'.heap && !IsWhite(s', a) && KidsMarked(s', a) { assert KidsMarked(s, a); }
  }

  /** Marking is complete: what is not white holds nothing white. */
  ghost predicate Marked(s: State)
  {
    && s.mark.Keys == s.heap.Keys
    && (forall a :: a in s.heap ==> Proper(s, a))
    && (forall a :: a in s.heap && !IsWhite(s, a) ==> KidsMarked(s, a))
    && (forall r :: r in Roots(s) ==> !IsWhite(s, r))
  }

  lemma {:induction false} AllDone(s: State, v: set<Ref>, s': State)
    requires Marking(s, [], {}, v) && s.gray == [] && s'.heap == s.heap && s'.mark == s.mark
    ensures forall a :: a in s'.heap ==> Proper(s', a) && (!IsWhite(s', a) ==> KidsMarked(s', a))
  {
    forall a | a in s'.heap ensures Proper(s', a) && (!IsWhite(s', a) ==> KidsMarked(s', a)) {
      assert Visited(s, [], v, a);
      if !IsWhite(s, a) { assert KidsMarked(s, a); }
    }
  }

  /** After the atomic phase exactly what is reachable is marked. */
  lemma {:induction false} AtomicSpec(s: State, live: iset<Ref>)
    requires Marking(s, s.grayagain, {}, {}) && s.gray == [] && Whole(s.heap) && !IsWhite(s, s.mainthread)
    requires ClosedSet(s.heap, live) && Within(s, live) && forall r :: r in Roots(s) ==> r in s.heap && r in live
    ensures var s' := Atomic(s);
      && s' == s.(mark := s'.mark, gray := s'.gray, grayagain := s'.grayagain, currentwhite := Other(s.currentwhite))
      && SameWhite(s.mark, s'.mark) && Marked(s') && Within(s', live)
  {
    var roots := [s.running, s.registry] + s.mt;
    MarkAllSpec(s, roots, s.grayagain, {}, {}, live);
    var s2 := AtomicTail(MarkAll(s, roots), s.grayagain, live);
    var s' := Atomic(s);
    assert s' == s2.(currentwhite := Other(s.currentwhite));
    forall r | r in Roots(s) ensures !IsWhite(s', r) {
      assert r == s.mainthread || r in roots;
    }
  }

  lemma {:induction false} AtomicTail(s: State, rest: seq<Ref>, live: iset<Ref>) returns (s': State)
    requires Marking(s, rest, {}, {}) && Whole(s.heap) && ClosedSet(s.heap, live) && Within(s, live)
    ensures s' == PropagateAll(PropagateAll(s).(gray := rest))
    ensures s' == s.(mark := s'.mark, gray := s'.gray, grayagain := s'.grayagain)
    ensures SameWhite(s.mark, s'.mark) && Within(s', live)
    ensures forall a :: a in s'.heap ==> Proper(s', a) && (!IsWhite(s', a) ==> KidsMarked(s', a))
  {
    var v := PropagateDoneSpec(s, rest, {}, live);
    var s1 := PropagateAll(s);
    SwapSpec(s1, rest, v);
    var v' := PropagateDoneSpec(s1.(gray := rest), [], v, live);
    s' := PropagateAll(s1.(gray := rest));
    AllDone(s', v', s');
  }

  // ----------------------------------------------------------------- sweeping

  /** Sweeping frees only dead objects, and leaves the others as they are. */
  ghost predicate Sweeps(s: State, s': State)
  {
    && s' == s.(heap := s'.heap, mark := s'.mark, allgc := s'.allgc, sweepgc := s'.sweepgc)
    && (forall o :: o in s'.heap ==> o in s.heap && s'.heap[o] == s.heap[o])
    && (forall o :: o in s.heap && !Dead(s, o) ==> o in s'.heap)
    && (forall o :: o in s'.heap ==> (Dead(s', o) <==> Dead(s, o)))
  }

  lemma {:induction false} FreeSpec(s: State, p: nat)
    requires Basic(s) && Intact(s) && p < |s.allgc| && Swept(s, p) && Dead(s, s.allgc[p])
    ensures var s' := Free(s, p); Basic(s') && Intact(s') && Swept(s', p)
    ensures Sweeps(s, Free(s, p))
  {
    var o := s.allgc[p];
    var s' := Free(s, p);
    forall x | x in s'.heap ensures Proper(s', x) { assert Proper(s, x); }
    ListWithout(s.allgc, p);
    forall r | r in Roots(s) ensures r in s'.heap && !Dead(s', r) { assert r in s.heap && !Dead(s, r); }
    forall a, b | a in s'.heap && !Dead(s', a) && Edge(s'.heap, a, b) ensures b in s'.heap && !Dead(s', b) {
      assert Edge(s.heap, a, b);
    }
  }

  lemma {:induction false} ListWithout(q: seq<Ref>, p: nat)
    requires NoDup(q) && p < |q|
    ensures var q' := q[..p] + q[p + 1..]; NoDup(q') && forall x :: x in q' <==> x in q && x != q[p]
  {
    var q' := q[..p] + q[p + 1..];
    forall x | x in q && x != q[p] ensures x in q' {
      var i :| 0 <= i < |q| && q[i] == x;
      assert q'[if i < p then i else i - 1] == x;
    }
  }

  lemma {:induction false} WhitenSpec(s: State, p: nat)
    requires Basic(s) && Intact(s) && p < |s.allgc| && Swept(s, p) && !Dead(s, s.allgc[p])
    ensures var s' := s.(mark := s.mark[s.allgc[p] := s.currentwhite]);
      Basic(s') && Intact(s') && Swept(s', p + 1) && Sweeps(s, s')
  {
    var o := s.allgc[p];
    var s' := s.(mark := s.mark[o := s.currentwhite]);
    assert o in s.allgc;
    forall x | x in s'.heap ensures Proper(s', x) { assert Proper(s, x); }
    forall r | r in Roots(s) ensures r in s'.heap && !Dead(s', r) { assert r in s.heap && !Dead(s, r); }
  }

  lemma {:induction false} SweepsTrans(s: State, s1: State, s2: State)
    requires Sweeps(s, s1) && Sweeps(s1, s2)
    ensures Sweeps(s, s2)
  {
  }

  lemma {:induction false} SweepStop(s: State, p: nat, at: int)
    requires Basic(s) && Intact(s) && p <= |s.allgc| && Swept(s, p) &&
      (at == p < |s.allgc| || (at < 0 && p == |s.allgc|))
    ensures var s' := s.(sweepgc := at); Basic(s') && Intact(s') && Swept(s', Done(s')) && Sweeps(s, s')
  {
    var s' := s.(sweepgc := at);
    forall x | x in s'.heap ensures Proper(s', x) { assert Proper(s, x); }
    forall r | r in Roots(s') ensures r in s'.heap && !Dead(s', r) { assert r in Roots(s); }
  }

  /** What `sweeplist`, started in `s`, leaves behind. */
  ghost predicate SweptFrom(s: State, s': State)
  {
    NOSWEEP <= s'.sweepgc <= |s'.allgc| && Basic(s') && Intact(s') && Swept(s', Done(s')) && Sweeps(s, s')
  }

  lemma {:induction false} SweptTrans(s: State, s1: State, s2: State)
    requires Sweeps(s, s1) && SweptFrom(s1, s2)
    ensures SweptFrom(s, s2)
  {
    SweepsTrans(s, s1, s2);
  }

  lemma {:induction false} SweepSpec(s: State, p: nat, count: nat)
    requires Basic(s) && Intact(s) && p <= |s.allgc| && Swept(s, p)
    ensures SweptFrom(s, SweepList(s, p, count))
    decreases count, 1
  {
    if p == |s.allgc| { SweepStop(s, p, NOSWEEP); }
    else if count == 0 { SweepStop(s, p, p); }
    else if Dead(s, s.allgc[p]) {
      FreeSpec(s, p);
      SweepSpec(Free(s, p), p, count - 1);
      SweptTrans(s, Free(s, p), SweepList(s, p, count));
    } else {
      SweepKeep(s, p, count);
    }
  }

  lemma {:induction false} SweepKeep(s: State, p: nat, count: nat)
    requires Basic(s) && Intact(s) && p < |s.allgc| && Swept(s, p) && count > 0 && !Dead(s, s.allgc[p])
    ensures SweptFrom(s, SweepList(s, p, count))
    decreases count, 0
  {
    var s1 := s.(mark := s.mark[s.allgc[p] := s.currentwhite]);
    WhitenSpec(s, p);
    SweepSpec(s1, p + 1, count - 1);
    SweptTrans(s, s1, SweepList(s, p, count));
  }
}
