/** What the running program sees of its own operations, the collector at work:
    a stored reference is held and reaches its object, a new object is reached,
    and a barrier leaves no black object with the white one it was given. */
module LuaGcMutator {
  import opened Common
  import opened LuaGc
  import opened LuaGcSafe
  import opened LuaGcRun

  /** The place of a reference in an object; `None` for one that is empty. */
  function Place(b: Obj, i: nat): Opt<Ref>
  {
    match b
    case Str => None
    case Udata(meta, user) => if i == 0 then meta else if i == 1 then user else None
    case Table(refs) => if i < |refs| then Some(refs[i]) else None
    case Func(refs) => if i < |refs| then Some(refs[i]) else None
    case Thread(refs) => if i < |refs| then Some(refs[i]) else None
  }

  /** Where a reference stored in place `i` comes to be: lists grow at the end. */
  function Target(b: Obj, i: nat): nat
  {
    if b.Udata? then (if i == 0 then 0 else 1) else if i < |Kids(b)| then i else |Kids(b)|
  }

  /** A store changes its place, and no other. */
  lemma {:induction false} PutPlaces(b: Obj, i: nat, v: Ref)
    requires !b.Str?
    ensures forall j :: Place(Put(b, i, v), j) == if j == Target(b, i) then Some(v) else Place(b, j)
    ensures v in Kids(Put(b, i, v))
  {
    var b' := Put(b, i, v);
    match b
    case Udata(_, _) =>
      assert b'.meta == Some(v) || b'.user == Some(v);
    case Table(refs) => PutSeqAt(refs, i, v);
    case Func(refs) => PutSeqAt(refs, i, v);
    case Thread(refs) => PutSeqAt(refs, i, v);
  }

  lemma {:induction false} PutSeqAt(refs: seq<Ref>, i: nat, v: Ref)
    ensures var r := PutSeq(refs, i, v); var k := if i < |refs| then i else |refs|;
      k < |r| && r[k] == v && |r| == (if i < |refs| then |refs| else |refs| + 1) && v in r
    ensures forall j :: 0 <= j < |refs| && j != i ==> PutSeq(refs, i, v)[j] == refs[j]
  {
    var r := PutSeq(refs, i, v);
    assert r[if i < |refs| then i else |refs|] == v;
  }

  // ------------------------------------------------------------- reachability

  /** A path to an object does not need the references of the object itself. */
  lemma {:induction false} ReachWithout(s: State, s': State, o: Ref)
    requires Reach(s, o) && Roots(s') == Roots(s)
    requires forall a, b :: a != o && Edge(s.heap, a, b) ==> Edge(s'.heap, a, b)
    ensures Reach(s', o)
  {
    var p :| Path(s.heap, p) && p[0] in Roots(s) && p[|p| - 1] == o;
    var p' := FirstVisit(s.heap, p, o);
    forall i, j | 0 <= i < |p'| && j == i + 1 < |p'| ensures Edge(s'.heap, p'[i], p'[j]) {
      assert Edge(s.heap, p'[i], p'[j]);
    }
    assert Path(s'.heap, p');
  }

  lemma {:induction false} FirstVisit(heap: map<Ref, Obj>, p: seq<Ref>, o: Ref) returns (p': seq<Ref>)
    requires Path(heap, p) && p[|p| - 1] == o
    ensures Path(heap, p') && p'[0] == p[0] && p'[|p'| - 1] == o && forall i :: 0 <= i < |p'| - 1 ==> p'[i] != o
    decreases |p|
  {
    if i :| 0 <= i < |p| - 1 && p[i] == o {
      assert Path(heap, p[..i + 1]);
      p' := FirstVisit(heap, p[..i + 1], o);
    } else {
      p' := p;
    }
  }

  lemma {:induction false} ReachKid(s: State, a: Ref, b: Ref)
    requires Reach(s, a) && Edge(s.heap, a, b)
    ensures Reach(s, b)
  {
    var p :| Path(s.heap, p) && p[0] in Roots(s) && p[|p| - 1] == a;
    var p' := p + [b];
    forall i, j | 0 <= i < |p'| && j == i + 1 < |p'| ensures Edge(s.heap, p'[i], p'[j]) { }
    assert Path(s.heap, p') && p'[0] in Roots(s) && p'[|p'| - 1] == b;
  }

  lemma {:induction false} MoreReach(s: State, s': State, o: Ref)
    requires Reach(s, o) && Roots(s') == Roots(s) && forall a, b :: Edge(s.heap, a, b) ==> Edge(s'.heap, a, b)
    ensures Reach(s', o)
  {
    var p :| Path(s.heap, p) && p[0] in Roots(s) && p[|p| - 1] == o;
    assert Path(s'.heap, p);
  }

  // ----------------------------------------------------------------- operations

  /** No barrier touches the heap or the roots. */
  lemma {:induction false} StoreHeap(s: State, o: Ref, i: nat, v: Ref, forward: bool)
    requires o in s.heap && v in s.heap && s.mark.Keys == s.heap.Keys && !s.heap[o].Str?
    ensures var s' := DoStore(s, o, i, v, forward);
      s'.heap == s.heap[o := Put(s.heap[o], i, v)] && Roots(s') == Roots(s) && s'.allgc == s.allgc
  {
  }

  /** After a store, in any state of the collector: the reference is in its
      place and all others are where they were, both objects are reachable, and
      neither is dead. */
  lemma {:induction false} StoreHolds(s: State, o: Ref, i: nat, v: Ref, forward: bool)
    requires Inv(s) && Reach(s, o) && Reach(s, v) && o in s.heap && !s.heap[o].Str?
    ensures Enabled(s, Store(o, i, v, forward))
    ensures var s' := Apply(s, Store(o, i, v, forward));
      && Inv(s') && Reach(s', o) && Reach(s', v) && v in s'.heap && !Dead(s', v)
      && s'.heap.Keys == s.heap.Keys && Roots(s') == Roots(s)
      && (forall j :: Place(s'.heap[o], j) == if j == Target(s.heap[o], i) then Some(v) else Place(s.heap[o], j))
      && (forall a :: a in s.heap && a != o ==> s'.heap[a] == s.heap[a])
  {
    var s' := Apply(s, Store(o, i, v, forward));
    ReachAlive(s, v);
    ApplySafe(s, Store(o, i, v, forward));
    StoreHeap(s, o, i, v, forward);
    PutPlaces(s.heap[o], i, v);
    ReachWithout(s, s', o);
    assert Edge(s'.heap, o, v);
    ReachKid(s', o, v);
    ReachAlive(s', v);
  }

  /** A new object is in the current white, on the list of all objects, and
      reachable; nothing else is lost by making it. */
  lemma {:induction false} NewHolds(s: State, o: Ref, b: Obj)
    requires Inv(s) && o !in s.heap && Empty(b)
    ensures Enabled(s, New(o, b))
    ensures var s' := Apply(s, New(o, b));
      && Inv(s') && Reach(s', o) && o in s'.heap && s'.heap[o] == b && s'.mark[o] == s.currentwhite && o in s'.allgc
      && (forall a :: Reach(s, a) ==> Reach(s', a))
      && (forall a :: a in s.heap && a != s.running ==> s'.heap[a] == s.heap[a] && s'.mark[a] == s.mark[a])
  {
    assert s.running in Roots(s);
    NewInv(s, o, b);
    NewReach(s, o, b);
  }

  lemma {:induction false} NewReach(s: State, o: Ref, b: Obj)
    requires s.running in s.heap && s.heap[s.running].Thread? && o !in s.heap
    ensures var s' := NewObj(s, o, b); Reach(s', o) && forall a :: Reach(s, a) ==> Reach(s', a)
  {
    var s' := NewObj(s, o, b);
    RootsReach(s');
    assert Kids(s'.heap[s.running])[|s.heap[s.running].refs|] == o;
    assert Edge(s'.heap, s.running, o);
    ReachKid(s', s.running, o);
    forall x, y | Edge(s.heap, x, y) ensures Edge(s'.heap, x, y) { }
    forall a | Reach(s, a) ensures Reach(s', a) { MoreReach(s, s', a); }
  }

  /** An erased reference is gone, and no other. */
  lemma {:induction false} EraseHolds(s: State, o: Ref, i: nat)
    requires Inv(s) && Reach(s, o) && o in s.heap && s.heap[o].Table? && i < |s.heap[o].refs|
    ensures Enabled(s, Erase(o, i))
    ensures var s' := Apply(s, Erase(o, i)); var refs := s.heap[o].refs;
      && s' == s.(heap := s.heap[o := Table(refs[..i] + refs[i + 1..])]) && Reach(s', o)
      && multiset(Kids(s'.heap[o])) == multiset(refs) - multiset{refs[i]}
  {
    var refs := s.heap[o].refs;
    var s' := Apply(s, Erase(o, i));
    ReachWithout(s, s', o);
    assert refs == refs[..i] + [refs[i]] + refs[i + 1..];
  }

  /** A barrier is called for: a black object was given a white one. */
  predicate Clash(s: State, o: Ref, v: Ref)
    requires o in s.mark && v in s.mark
  {
    s.mark[o] == Black && White(s.mark[v])
  }

  /** Either barrier leaves no clash, in every phase, and does nothing where
      there is none; the forward one gets there by marking `v` while marking,
      the backward one by giving `o` back to the list for the atomic phase. */
  lemma {:induction false} BarrierResolves(s: State, o: Ref, v: Ref)
    requires o in s.mark && v in s.mark && v in s.heap && White(s.currentwhite)
    ensures var s' := Barrier(s, o, v);
      && o in s'.mark && v in s'.mark && !Clash(s', o, v) && (!Clash(s, o, v) ==> s' == s)
      && (Clash(s, o, v) && KeepInvariant(s.gcstate) ==> Grew(s, s') && s'.mark[o] == Black && !IsWhite(s', v))
      && (Clash(s, o, v) && !KeepInvariant(s.gcstate) ==>
          s'.mark[o] == s.currentwhite && forall a :: a in s.mark && a != o ==> s'.mark[a] == s.mark[a])
    ensures var s' := BarrierBack(s, o, v);
      && o in s'.mark && v in s'.mark && !Clash(s', o, v) && (!Clash(s, o, v) ==> s' == s)
      && (Clash(s, o, v) ==> s'.mark[o] == Gray && o in s'.grayagain && s'.mark[v] == s.mark[v])
  {
  }
}
