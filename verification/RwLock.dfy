/** The spinning read/write lock of rwlock.h, run by any number of threads on
    sequentially consistent memory: each atomic access is one step. */
module RwLock {
  type Tid = nat

  /** Where a thread is. */
  datatype Pc =
    | Out
    | ReadSpin      // in rwlock_rlock, waiting for write == 0
    | ReadInc       // saw write == 0, is about to increment read
    | ReadCheck     // has incremented read, is about to look at write again
    | ReadBack      // saw a writer, is about to decrement read
    | Reading
    | WriteSpin     // in rwlock_wlock, trying to set write
    | WriteDrain    // has set write, waiting for read == 0
    | Writing

  datatype State = State(write: nat, read: int, pcs: map<Tid, Pc>)

  predicate Counted(pc: Pc) { pc.ReadCheck? || pc.ReadBack? || pc.Reading? }

  predicate HasWrite(pc: Pc) { pc.WriteDrain? || pc.Writing? }

  function Counts(s: State): set<Tid> { set t | t in s.pcs && Counted(s.pcs[t]) }

  function WriteHolders(s: State): set<Tid> { set t | t in s.pcs && HasWrite(s.pcs[t]) }

  function Readers(s: State): set<Tid> { set t | t in s.pcs && s.pcs[t].Reading? }

  function Writers(s: State): set<Tid> { set t | t in s.pcs && s.pcs[t].Writing? }

  /** What a thread does next; outside and inside its section it may choose. */
  datatype Choice = Stay | Read | Write | Leave

  function Move(s: State, t: Tid, pc: Pc): State
  {
    s.(pcs := s.pcs[t := pc])
  }

  /** One atomic access by thread `t`. */
  function Step(s: State, t: Tid, ch: Choice): State
    requires t in s.pcs
  {
    match s.pcs[t]
    case Out => if ch.Read? then Move(s, t, ReadSpin) else if ch.Write? then Move(s, t, WriteSpin) else s
    case ReadSpin => if s.write != 0 then s else Move(s, t, ReadInc)
    case ReadInc => Move(s.(read := s.read + 1), t, ReadCheck)
    case ReadCheck => Move(s, t, if s.write != 0 then ReadBack else Reading)
    case ReadBack => Move(s.(read := s.read - 1), t, ReadSpin)
    case Reading => if ch.Leave? then Move(s.(read := s.read - 1), t, Out) else s
    case WriteSpin => if s.write != 0 then s else Move(s.(write := 1), t, WriteDrain)
    case WriteDrain => if s.read != 0 then s else Move(s, t, Writing)
    case Writing => if ch.Leave? then Move(s.(write := 0), t, Out) else s
  }

  ghost predicate Inv(s: State)
  {
    && s.read == |Counts(s)|
    && (s.write == 0 || s.write == 1) && s.write == |WriteHolders(s)|
    && (forall u, r :: u in Writers(s) && r in s.pcs ==> !s.pcs[r].Reading?)
  }

  lemma {:induction false} SetsDiffer(x: set<Tid>, y: set<Tid>, t: Tid)
    requires forall u :: u != t ==> (u in x <==> u in y)
    ensures |y| == |x| + (if t in y then 1 else 0) - (if t in x then 1 else 0)
  {
    var rest := x - {t};
    assert x == rest || x == rest + {t};
    assert y == rest || y == rest + {t};
  }

  lemma {:induction false} Moved(s: State, s': State, t: Tid)
    requires t in s.pcs && t in s'.pcs && s'.pcs == s.pcs[t := s'.pcs[t]]
    ensures |Counts(s')| == |Counts(s)| + (if Counted(s'.pcs[t]) then 1 else 0) - (if Counted(s.pcs[t]) then 1 else 0)
    ensures |WriteHolders(s')| ==
      |WriteHolders(s)| + (if HasWrite(s'.pcs[t]) then 1 else 0) - (if HasWrite(s.pcs[t]) then 1 else 0)
  {
    SetsDiffer(Counts(s), Counts(s'), t);
    SetsDiffer(WriteHolders(s), WriteHolders(s'), t);
  }

  lemma {:induction false} AtMostOne(x: set<Tid>, t: Tid, u: Tid)
    requires |x| <= 1 && t in x && u in x
    ensures t == u
  {
    assert x == (x - {t}) + {t};
    assert u !in x - {t};
  }

  lemma {:induction false} StepInv(s: State, t: Tid, ch: Choice)
    requires Inv(s) && t in s.pcs
    ensures Inv(Step(s, t, ch))
  {
    var s' := Step(s, t, ch);
    assert s'.pcs == s.pcs[t := s'.pcs[t]];
    Moved(s, s', t);
    forall u, r | u in Writers(s') && r in s'.pcs ensures !s'.pcs[r].Reading? {
      if u in Writers(s) {
        assert u in WriteHolders(s);
        assert !s.pcs[r].Reading?;
      } else {
        assert u == t && r !in Counts(s);
      }
    }
  }

  // --------------------------------------------------------------------- runs

  ghost predicate IsRun(run: seq<State>, ts: seq<Tid>, chs: seq<Choice>)
  {
    && |run| == |ts| + 1 && |chs| == |ts|
    && run[0].read == 0 && run[0].write == 0 && (forall t :: t in run[0].pcs ==> run[0].pcs[t].Out?)
    && forall i, j :: 0 <= i < |ts| && j == i + 1 ==> ts[i] in run[i].pcs && run[j] == Step(run[i], ts[i], chs[i])
  }

  /** In every state of every run, for any number of threads: a writer in its
      section is alone with the lock, and `read` is the number of threads between
      their increment and decrement. */
  lemma {:induction false} Exclusion(run: seq<State>, ts: seq<Tid>, chs: seq<Choice>, k: nat)
    requires IsRun(run, ts, chs) && k < |run|
    ensures Inv(run[k]) && run[k].read == |Counts(run[k])|
    ensures forall t, u :: t in Writers(run[k]) && u in run[k].pcs && u != t ==>
      !run[k].pcs[u].Writing? && !run[k].pcs[u].Reading?
  {
    var s := run[k];
    if k == 0 {
      assert Counts(s) == {} && WriteHolders(s) == {} && Writers(s) == {};
    } else {
      Exclusion(run, ts, chs, k - 1);
      StepInv(run[k - 1], ts[k - 1], chs[k - 1]);
    }
    forall t, u | t in Writers(s) && u in s.pcs && u != t ensures !s.pcs[u].Writing? && !s.pcs[u].Reading? {
      assert t in WriteHolders(s);
      if s.pcs[u].Writing? { AtMostOne(WriteHolders(s), t, u); }
    }
  }

  // --------------------------------------------------------------- refinement

  /** The lock as its users see it. */
  datatype Lock = Lock(readers: set<Tid>, writers: set<Tid>)

  function Abs(s: State): Lock { Lock(Readers(s), Writers(s)) }

  /** What a read/write lock may do: let a reader in when no writer is in, let a
      writer in when nobody is, let anybody out, or nothing. */
  ghost predicate Legal(l: Lock, t: Tid, l': Lock)
  {
    || l' == l
    || (l.writers == {} && l' == l.(readers := l.readers + {t}))
    || (l.writers == {} && l.readers == {} && l' == l.(writers := {t}))
    || l' == l.(readers := l.readers - {t})
    || l' == l.(writers := l.writers - {t})
  }

  /** Every atomic access is a legal move of the lock; while a thread has set
      `write`, no further reader gets in. */
  lemma {:induction false} Refines(s: State, t: Tid, ch: Choice)
    requires Inv(s) && t in s.pcs
    ensures Legal(Abs(s), t, Abs(Step(s, t, ch)))
    ensures s.write != 0 ==> Readers(Step(s, t, ch)) <= Readers(s)
  {
    var s' := Step(s, t, ch);
    match s.pcs[t]
    case ReadCheck =>
      if s.write == 0 {
        assert WriteHolders(s) == {};
        forall u ensures u !in Writers(s) { assert u in Writers(s) ==> u in WriteHolders(s); }
        assert Writers(s') == {} && Readers(s') == Readers(s) + {t};
      } else {
        assert Readers(s') == Readers(s) && Writers(s') == Writers(s);
      }
    case WriteDrain =>
      if s.read == 0 {
        assert Counts(s) == {} && t in WriteHolders(s);
        forall u ensures (u in Writers(s') <==> u == t) && u !in Writers(s) {
          if u in Writers(s) { assert u in WriteHolders(s); AtMostOne(WriteHolders(s), t, u); }
        }
        forall u ensures u !in Readers(s) { assert u in Readers(s) ==> u in Counts(s); }
        assert Readers(s) == {} && Readers(s') == {} && Writers(s) == {} && Writers(s') == {t};
      }
    case Reading => if ch.Leave? { assert Readers(s') == Readers(s) - {t} && Writers(s') == Writers(s); }
    case Writing => if ch.Leave? { assert Readers(s') == Readers(s) && Writers(s') == Writers(s) - {t}; }
    case _ => assert Readers(s') == Readers(s) && Writers(s') == Writers(s);
  }

  // ------------------------------------------------------------------ progress

  /** The threads of a schedule take their steps; whoever is in a section leaves. */
  function Play(s: State, ts: seq<Tid>): State
    requires forall t :: t in ts ==> t in s.pcs
    decreases |ts|
  {
    if ts == [] then s else Play(Step(s, ts[0], Leave), ts[1..])
  }

  ghost predicate Free(s: State)
  {
    s.write == 0 && s.read == 0 && forall t :: t in s.pcs ==> s.pcs[t].Out?
  }

  /** Steps that a thread has before it: as a writer, as a reader that a writer
      waits for, and as a reader that nobody hinders. */
  datatype Way = AsWriter | Draining | AsReader

  function Rank(w: Way, pc: Pc): nat
  {
    match w
    case AsWriter => if pc.WriteSpin? then 3 else if pc.WriteDrain? then 2 else if pc.Writing? then 1 else 0
    case Draining => if pc.ReadCheck? then 2 else if pc.ReadBack? || pc.Reading? then 1 else 0
    case AsReader =>
      if pc.ReadBack? then 5 else if pc.ReadSpin? then 4 else if pc.ReadInc? then 3 else if pc.ReadCheck? then 2
      else if pc.Reading? then 1 else 0
  }

  function Tickets(s: State, w: Way): set<(Tid, nat)>
  {
    set t, k: nat | t in s.pcs && k < Rank(w, s.pcs[t]) :: (t, k)
  }

  lemma {:induction false} TicketsMove(s: State, t: Tid, s': State, w: Way)
    requires t in s.pcs && t in s'.pcs && s'.pcs == s.pcs[t := s'.pcs[t]]
    requires Rank(w, s'.pcs[t]) <= Rank(w, s.pcs[t])
    ensures Tickets(s', w) <= Tickets(s, w)
    ensures Rank(w, s'.pcs[t]) < Rank(w, s.pcs[t]) ==> Tickets(s', w) < Tickets(s, w)
    ensures Rank(w, s'.pcs[t]) == Rank(w, s.pcs[t]) ==> Tickets(s', w) == Tickets(s, w)
  {
    var k := Rank(w, s'.pcs[t]);
    if k < Rank(w, s.pcs[t]) { assert (t, k) in Tickets(s, w) && (t, k) !in Tickets(s', w); }
  }

  /** Who is to step, so that all get through: with the flag set, first the
      readers that hold up the writer, then the writer; with the flag free, a
      writer if there is one. */
  ghost predicate Next(s: State, t: Tid)
  {
    && t in s.pcs
    && if s.write != 0 then Counted(s.pcs[t]) || (s.read == 0 && HasWrite(s.pcs[t]))
       else if Tickets(s, AsWriter) != {} then s.pcs[t].WriteSpin?
       else !s.pcs[t].Out?
  }

  lemma {:induction false} SomeNext(s: State) returns (t: Tid)
    requires Inv(s) && exists u :: u in s.pcs && !s.pcs[u].Out?
    ensures Next(s, t)
  {
    if s.write != 0 {
      if s.read == 0 {
        t :| t in WriteHolders(s);
      } else {
        t :| t in Counts(s);
      }
    } else if Tickets(s, AsWriter) != {} {
      var e :| e in Tickets(s, AsWriter);
      t := e.0;
      assert WriteHolders(s) == {} && t !in WriteHolders(s);
    } else {
      t :| t in s.pcs && !s.pcs[t].Out?;
    }
  }

  /** Such a step is one forward. */
  lemma {:induction false} NextForward(s: State, t: Tid)
    requires Inv(s) && Next(s, t)
    ensures var s' := Step(s, t, Leave);
      || Tickets(s', AsWriter) < Tickets(s, AsWriter)
      || (Tickets(s', AsWriter) == Tickets(s, AsWriter) != {} && Tickets(s', Draining) < Tickets(s, Draining))
      || (Tickets(s', AsWriter) == Tickets(s, AsWriter) == {} && Tickets(s', AsReader) < Tickets(s, AsReader))
  {
    var s' := Step(s, t, Leave);
    assert s'.pcs == s.pcs[t := s'.pcs[t]];
    TicketsMove(s, t, s', AsWriter);
    if s.write != 0 {
      var u :| u in WriteHolders(s);
      assert (u, 0) in Tickets(s, AsWriter);
      if Counted(s.pcs[t]) { TicketsMove(s, t, s', Draining); }
    } else if Tickets(s, AsWriter) == {} {
      assert s.pcs[t].WriteSpin? || HasWrite(s.pcs[t]) ==> (t, 0) in Tickets(s, AsWriter);
      TicketsMove(s, t, s', AsReader);
    }
  }

  /** From every state there is a schedule by which all threads get through their
      sections and the lock is free: no deadlock, and nothing is left set. */
  lemma {:induction false} CanFinish(s: State) returns (ts: seq<Tid>)
    requires Inv(s)
    ensures (forall t :: t in ts ==> t in s.pcs) && Free(Play(s, ts)) && Play(s, ts).pcs.Keys == s.pcs.Keys
    decreases Tickets(s, AsWriter), if Tickets(s, AsWriter) != {} then Tickets(s, Draining) else Tickets(s, AsReader)
  {
    if u :| u in s.pcs && !s.pcs[u].Out? {
      var t := SomeNext(s);
      var s' := Step(s, t, Leave);
      StepInv(s, t, Leave);
      NextForward(s, t);
      var rest := CanFinish(s');
      ts := PlayFirst(s, t, rest);
    } else {
      ts := [];
      assert Counts(s) == {} && WriteHolders(s) == {};
    }
  }

  lemma {:induction false} PlayFirst(s: State, t: Tid, rest: seq<Tid>) returns (ts: seq<Tid>)
    requires t in s.pcs && forall u :: u in rest ==> u in s.pcs
    ensures (forall u :: u in ts ==> u in s.pcs) && Step(s, t, Leave).pcs.Keys == s.pcs.Keys
    ensures Play(s, ts) == Play(Step(s, t, Leave), rest)
  {
    ts := [t] + rest;
    assert ts[1..] == rest;
  }

  /** A thread that finds the lock free gets in by its own steps alone. */
  lemma {:induction false} FreeEnters(s: State, t: Tid)
    requires Free(s) && t in s.pcs
    ensures var r := Step(s, t, Read); r.pcs[t].ReadSpin? && Play(r, [t, t, t]).pcs == s.pcs[t := Reading]
    ensures var w := Step(s, t, Write); w.pcs[t].WriteSpin? && Play(w, [t, t]).pcs == s.pcs[t := Writing]
  {
    var r := Step(s, t, Read);
    var r1 := Step(r, t, Leave);
    var r2 := Step(r1, t, Leave);
    assert [t, t, t][1..] == [t, t] && [t, t][1..] == [t] && [t][1..] == [];
    assert Play(r, [t, t, t]) == Play(r1, [t, t]) == Play(r2, [t]) == Step(r2, t, Leave);
    var w := Step(s, t, Write);
    var w1 := Step(w, t, Leave);
    assert Play(w, [t, t]) == Play(w1, [t]) == Step(w1, t, Leave);
  }
}
