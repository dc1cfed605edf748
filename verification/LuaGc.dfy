/** The incremental collector of Lua (lgc.c): tri-colour mark and sweep with
    two whites, on strong references.  The state of the collector and what its
    operations do to it, as functions of the state. */
module LuaGc {
  import opened Common

  type Ref = nat

  /** Collectable objects by how they are visited: strings and userdata turn
      black when marked, tables and functions when traversed, threads never. */
  datatype Obj =
    | Str
    | Udata(meta: Opt<Ref>, user: Opt<Ref>)
    | Table(refs: seq<Ref>)
    | Func(refs: seq<Ref>)
    | Thread(refs: seq<Ref>)

  datatype Color = White0 | White1 | Gray | Black

  datatype GcState =
    | GCSpropagate | GCSatomic | GCSswpallgc | GCSswpfinobj | GCSswptobefnz | GCSswpend | GCScallfin | GCSpause

  /** `sweepgc` is the number of objects in front of the sweep position in
      `allgc`, or `NOSWEEP`. */
  datatype State = State(
    heap: map<Ref, Obj>, mark: map<Ref, Color>,
    allgc: seq<Ref>, gray: seq<Ref>, grayagain: seq<Ref>,
    gcstate: GcState, currentwhite: Color, sweepgc: int,
    mainthread: Ref, registry: Ref, mt: seq<Ref>, running: Ref)

  const NOSWEEP: int := -1

  function OptSeq(o: Opt<Ref>): seq<Ref>
  {
    if o.Some? then [o.v] else []
  }

  /** The references an object holds. */
  function Kids(b: Obj): seq<Ref>
  {
    match b
    case Str => []
    case Udata(meta, user) => OptSeq(meta) + OptSeq(user)
    case Table(refs) => refs
    case Func(refs) => refs
    case Thread(refs) => refs
  }

  predicate IsNode(b: Obj) { b.Table? || b.Func? || b.Thread? }

  predicate White(c: Color) { c == White0 || c == White1 }

  /** `otherwhite` */
  function Other(c: Color): Color
  {
    if c == White0 then White1 else White0
  }

  predicate KeepInvariant(g: GcState) { g.GCSpropagate? || g.GCSatomic? }

  predicate IsSweepPhase(g: GcState)
  {
    g.GCSswpallgc? || g.GCSswpfinobj? || g.GCSswptobefnz? || g.GCSswpend?
  }

  predicate IsWhite(s: State, o: Ref) { o in s.mark && White(s.mark[o]) }

  predicate Dead(s: State, o: Ref) { o in s.mark && s.mark[o] == Other(s.currentwhite) }

  function Whites(m: map<Ref, Color>): set<Ref>
  {
    set o | o in m && White(m[o])
  }

  // ------------------------------------------------------------------ marking

  /** Marking only turns white objects gray or black. */
  ghost predicate Grew(s: State, s': State)
  {
    && s' == s.(mark := s'.mark, gray := s'.gray)
    && s'.mark.Keys == s.mark.Keys
    && forall o :: o in s.mark && (!White(s.mark[o]) || White(s'.mark[o])) ==> s'.mark[o] == s.mark[o]
  }

  /** What is white was white before, in the same white. */
  ghost predicate SameWhite(m: map<Ref, Color>, m': map<Ref, Color>)
  {
    m'.Keys == m.Keys && forall o :: o in m && White(m'[o]) ==> m'[o] == m[o]
  }

  lemma GrewWhites(s: State, s': State)
    requires Grew(s, s')
    ensures Whites(s'.mark) <= Whites(s.mark)
  {
  }

  /** `reallymarkobject` */
  function ReallyMark(s: State, o: Ref): (s': State)
    requires IsWhite(s, o) && o in s.heap
    ensures Grew(s, s') && !IsWhite(s', o)
    ensures Whites(s'.mark) < Whites(s.mark)
    decreases Whites(s.mark), 0
  {
    var s1 := s.(mark := s.mark[o := Gray]);
    assert o in Whites(s.mark) && o !in Whites(s1.mark) && Whites(s1.mark) <= Whites(s.mark);
    match s.heap[o]
    case Str => s.(mark := s.mark[o := Black])
    case Udata(meta, user) =>
      var s2 := MarkOpt(s1, meta);
      GrewWhites(s1, s2);
      var s3 := s2.(mark := s2.mark[o := Black]);
      assert Whites(s3.mark) <= Whites(s1.mark);
      MarkOpt(s3, user)
    case _ => s1.(gray := [o] + s.gray)
  }

  /** `markobjectN` */
  function MarkOpt(s: State, o: Opt<Ref>): (s': State)
    ensures Grew(s, s') && (o.Some? ==> !IsWhite(s', o.v) || o.v !in s.heap)
    ensures Whites(s'.mark) <= Whites(s.mark)
    decreases Whites(s.mark), 1
  {
    if o.Some? && IsWhite(s, o.v) && o.v in s.heap then ReallyMark(s, o.v) else s
  }

  /** Mark every object of a list. */
  function MarkAll(s: State, os: seq<Ref>): (s': State)
    ensures Grew(s, s') && Whites(s'.mark) <= Whites(s.mark)
    ensures s' == s || Whites(s'.mark) < Whites(s.mark)
    decreases |os|
  {
    if os == [] then s else MarkAll(MarkOpt(s, Some(os[0])), os[1..])
  }

  /** `propagatemark`: traverse the first gray object. */
  function PropagateMark(s: State): (s': State)
    requires s.gray != [] && s.gray[0] in s.heap && s.gray[0] in s.mark && !White(s.mark[s.gray[0]])
    ensures s' == s.(mark := s'.mark, gray := s'.gray, grayagain := s'.grayagain) && SameWhite(s.mark, s'.mark)
    ensures Whites(s'.mark) < Whites(s.mark) || (Whites(s'.mark) == Whites(s.mark) && |s'.gray| < |s.gray|)
  {
    var o := s.gray[0];
    var s1 := s.(gray := s.gray[1..]);
    var s2 := if s.heap[o].Thread? then s1.(mark := s.mark[o := Gray], grayagain := [o] + s.grayagain)
              else s1.(mark := s.mark[o := Black]);
    assert Whites(s2.mark) == Whites(s.mark);
    MarkAll(s2, Kids(s.heap[o]))
  }

  /** Objects in the gray list are gray and can be traversed. */
  predicate Queued(s: State, o: Ref)
  {
    o in s.heap && o in s.mark && s.mark[o] == Gray && IsNode(s.heap[o])
  }

  /** `propagateall` */
  function PropagateAll(s: State): (s': State)
    ensures s' == s.(mark := s'.mark, gray := s'.gray, grayagain := s'.grayagain) && SameWhite(s.mark, s'.mark)
    decreases Whites(s.mark), |s.gray|
  {
    if s.gray == [] || !Queued(s, s.gray[0]) then s else PropagateAll(PropagateMark(s))
  }

  /** `restartcollection` */
  function Restart(s: State): State
  {
    MarkAll(s.(gray := [], grayagain := []), [s.mainthread, s.registry] + s.mt)
  }

  /** `atomic`, and the flip of the current white at its end. */
  function Atomic(s: State): State
  {
    var s1 := PropagateAll(MarkAll(s, [s.running, s.registry] + s.mt));
    var s2 := PropagateAll(s1.(gray := s.grayagain));
    s2.(currentwhite := Other(s.currentwhite))
  }

  // ----------------------------------------------------------------- sweeping

  /** `sweeplist` from position `p` over at most `count` objects. */
  function SweepList(s: State, p: nat, count: nat): State
    requires p <= |s.allgc|
    decreases count
  {
    if p == |s.allgc| then s.(sweepgc := NOSWEEP)
    else if count == 0 then s.(sweepgc := p)
    else
      var o := s.allgc[p];
      if Dead(s, o) then SweepList(Free(s, p), p, count - 1)
      else SweepList(s.(mark := s.mark[o := s.currentwhite]), p + 1, count - 1)
  }

  /** Unlink and free the object at position `p`. */
  function Free(s: State, p: nat): State
    requires p < |s.allgc|
  {
    var o := s.allgc[p];
    s.(allgc := s.allgc[..p] + s.allgc[p + 1..], heap := s.heap - {o}, mark := s.mark - {o})
  }

  /** `entersweep` */
  function EnterSweep(s: State): State
  {
    SweepList(s.(gcstate := GCSswpallgc), 0, 1)
  }

  /** `singlestep`; the lists of objects with finalizers are empty. */
  function SingleStep(s: State, sweepmax: nat): State
    requires s.sweepgc <= |s.allgc|
  {
    match s.gcstate
    case GCSpause => Restart(s).(gcstate := GCSpropagate)
    case GCSpropagate =>
      if s.gray == [] || !Queued(s, s.gray[0]) then s else
      var s1 := PropagateMark(s);
      if s1.gray == [] then s1.(gcstate := GCSatomic) else s1
    case GCSatomic => EnterSweep(Atomic(PropagateAll(s)))
    case GCSswpallgc =>
      var s1 := if s.sweepgc >= 0 then SweepList(s, s.sweepgc, sweepmax) else s;
      if s1.sweepgc >= 0 then s1 else s1.(gcstate := GCSswpfinobj)
    case GCSswpfinobj => s.(gcstate := GCSswptobefnz)
    case GCSswptobefnz => s.(gcstate := GCSswpend)
    case GCSswpend => s.(mark := s.mark[s.mainthread := s.currentwhite], gcstate := GCScallfin)
    case GCScallfin => s.(gcstate := GCSpause)
  }

  // ------------------------------------------------------------------ mutator

  /** `luaC_newobj`, the object left on the stack of the running thread. */
  function NewObj(s: State, o: Ref, b: Obj): State
    requires s.running in s.heap && s.heap[s.running].Thread?
  {
    var th := Thread(s.heap[s.running].refs + [o]);
    s.(heap := s.heap[o := b][s.running := th], mark := s.mark[o := s.currentwhite], allgc := [o] + s.allgc,
       sweepgc := if s.sweepgc > 0 then s.sweepgc + 1 else s.sweepgc)
  }

  /** `luaC_barrier`, after `v` was stored into `o`. */
  function Barrier(s: State, o: Ref, v: Ref): State
    requires o in s.mark && v in s.mark && v in s.heap
  {
    if !(s.mark[o] == Black && White(s.mark[v])) then s
    else if KeepInvariant(s.gcstate) then ReallyMark(s, v)
    else s.(mark := s.mark[o := s.currentwhite])
  }

  /** `luaC_barrierback` */
  function BarrierBack(s: State, o: Ref, v: Ref): State
    requires o in s.mark && v in s.mark
  {
    if !(s.mark[o] == Black && White(s.mark[v])) then s
    else s.(mark := s.mark[o := Gray], grayagain := [o] + s.grayagain)
  }

  /** The object with `v` in place `i` (a new last place for lists). */
  function Put(b: Obj, i: nat, v: Ref): Obj
  {
    match b
    case Str => b
    case Udata(meta, user) => if i == 0 then Udata(Some(v), user) else Udata(meta, Some(v))
    case Table(refs) => Table(PutSeq(refs, i, v))
    case Func(refs) => Func(PutSeq(refs, i, v))
    case Thread(refs) => Thread(PutSeq(refs, i, v))
  }

  function PutSeq(refs: seq<Ref>, i: nat, v: Ref): seq<Ref>
  {
    if i < |refs| then refs[i := v] else refs + [v]
  }

  /** The object without the reference in place `i`. */
  function Drop(b: Obj, i: nat): Obj
  {
    match b
    case Str => b
    case Udata(meta, user) => if i == 0 then Udata(None, user) else Udata(meta, None)
    case Table(refs) => Table(DropSeq(refs, i))
    case Func(refs) => Func(DropSeq(refs, i))
    case Thread(refs) => Thread(DropSeq(refs, i))
  }

  function DropSeq(refs: seq<Ref>, i: nat): seq<Ref>
  {
    if i < |refs| then refs[..i] + refs[i + 1..] else refs
  }
}
