/** What becomes of the messages that are sent to services, in every run: each is
    accepted once or is about to be, a service that has not been released has all
    its messages dispatched, and a message that waits can be dispatched. */
module SchedulerFates {
  import opened Common
  import opened Scheduler

  // ------------------------------------------------------------------- sending

  /** How often message `m` has been sent to `h` in the first `k` steps. */
  function Sent(steps: seq<Step>, k: nat, h: Id, m: Msg): nat
    requires k <= |steps|
    decreases k
  {
    if k == 0 then 0
    else
      var st := steps[k - 1];
      Sent(steps, k - 1, h, m) + if st.Send? && st.h == h && st.m == m then 1 else 0
  }

  /** Threads that are about to push `m` to `h`. */
  function Senders(acts: map<Tid, Act>, h: Id, m: Msg): set<Tid>
  {
    set t | t in acts && acts[t] == Pushing(h, m)
  }

  /** How often `h` has accepted `m`. */
  function Taken(s: State, h: Id, m: Msg): nat
  {
    if h in s.svc then multiset(s.svc[h].accepted)[m] else 0
  }

  function Under(s: State, h: Id, m: Msg): nat
  {
    Taken(s, h, m) + |Senders(s.acts, h, m)|
  }

  lemma {:induction false} SendersBecome(acts: map<Tid, Act>, t: Tid, a: Act, h: Id, m: Msg)
    ensures |Senders(acts[t := a], h, m)| == |Senders(acts, h, m)|
      + (if a == Pushing(h, m) then 1 else 0) - (if t in acts && acts[t] == Pushing(h, m) then 1 else 0)
  {
    SetsDiffer(Senders(acts, h, m), Senders(acts[t := a], h, m), t);
  }

  /** Activities whose step concerns one thread and accepts nothing. */
  predicate Simple(a: Act)
  {
    !a.Pushing? && !a.Back? && !a.Release? && !a.Failed? && !a.Init? && !a.FailRetire?
  }

  lemma {:induction false} SimpleStep(s: State, t: Tid, t2: Tid, more: bool, h: Id)
    requires t in s.acts && Known(s, s.acts[t]) && Simple(s.acts[t])
    ensures var s' := Advance(s, t, t2, more);
      && t in s'.acts && s'.acts == s.acts[t := s'.acts[t]] && !s'.acts[t].Pushing?
      && (h in s'.svc <==> h in s.svc) && (h in s.svc ==> s'.svc[h].accepted == s.svc[h].accepted)
  {
  }

  lemma {:induction false} GoCounts(s: State, t: Tid, t2: Tid, more: bool, h: Id, m: Msg)
    requires t in s.acts && t2 !in s.acts && Known(s, s.acts[t])
    ensures Under(Advance(s, t, t2, more), h, m) == Under(s, h, m)
  {
    if Simple(s.acts[t]) {
      SimpleStep(s, t, t2, more, h);
      SendersBecome(s.acts, t, Advance(s, t, t2, more).acts[t], h, m);
    } else if s.acts[t].Pushing? {
      SendersBecome(s.acts, t, Release(s.acts[t].c), h, m);
    } else {
      OtherCounts(s, t, t2, more, h, m);
    }
  }

  lemma {:induction false} OtherCounts(s: State, t: Tid, t2: Tid, more: bool, h: Id, m: Msg)
    requires t in s.acts && t2 !in s.acts && Known(s, s.acts[t]) && !Simple(s.acts[t]) && !s.acts[t].Pushing?
    ensures Under(Advance(s, t, t2, more), h, m) == Under(s, h, m)
  {
    var a := s.acts[t];
    if a.Back? { UnrefCounts(s, t, t2, a.c, Hold(a.q), h, m); }
    else if a.Release? { UnrefCounts(s, t, t2, a.c, Idle, h, m); }
    else if a.Failed? { UnrefCounts(s, t, t2, a.c, FailRetire(a.c), h, m); }
    else if a.Init? {
      SendersBecome(s.acts, t, Failed(a.c), h, m);
      UnrefCounts(s, t, t2, a.c, Released(a.c, s.svc[a.c].ref > 1), h, m);
    } else {
      SendersBecome(s.acts, t, Drop(a.c), h, m);
      SendersBecome(s.acts[t := Drop(a.c)], t2, Release(a.c), h, m);
    }
  }

  lemma {:induction false} UnrefCounts(s: State, t: Tid, t2: Tid, c: Id, a: Act, h: Id, m: Msg)
    requires c in s.svc && t in s.acts && t2 !in s.acts && !s.acts[t].Pushing? && !a.Pushing?
    ensures Under(Unref(s, t, t2, c, a), h, m) == Under(s, h, m)
  {
    SendersBecome(s.acts, t, a, h, m);
    SendersBecome(s.acts[t := a], t2, Delete(c), h, m);
  }

  lemma {:induction false} StepCounts(s: State, st: Step, s': State, h: Id, m: Msg)
    requires Transition(s, st, s')
    ensures Under(s', h, m) == Under(s, h, m) + if st.Send? && st.h == h && st.m == m then 1 else 0
  {
    match st
    case Go(t, t2, more) => GoCounts(s, t, t2, more, h, m);
    case Spawn(t) => SendersBecome(s.acts, t, Idle, h, m);
    case Send(t, c, n) => SendersBecome(s.acts, t, Pushing(c, n), h, m);
    case Kill(t, c) => SendersBecome(s.acts, t, Release(c), h, m);
    case Create(t, c) => SendersBecome(s.acts, t, Init(c), h, m);
  }

  /** In every run: whatever has been sent to a service has been accepted, once, or
      the sender is about to push it. */
  lemma {:induction false} SentAccepted(run: seq<State>, steps: seq<Step>, k: nat, h: Id, m: Msg)
    requires IsRun(run, steps) && k < |run|
    ensures Sent(steps, k, h, m) == Under(run[k], h, m)
    decreases k
  {
    if k == 0 {
      assert Senders(run[0].acts, h, m) == {};
    } else {
      SentAccepted(run, steps, k - 1, h, m);
      assert Transition(run[k - 1], steps[k - 1], run[k]);
      StepCounts(run[k - 1], steps[k - 1], run[k], h, m);
    }
  }

  // --------------------------------------------------------------------- fates

  /** Messages of a service are dropped only after its release. */
  ghost predicate Fair(s: State, h: Id)
    requires h in s.svc
  {
    forall i :: 0 <= i < |s.svc[h].log| && s.svc[h].log[i].Dropped? ==> s.svc[h].release
  }

  lemma {:induction false} FairStep(s: State, st: Step, s': State, h: Id)
    requires Inv(s) && Transition(s, st, s') && h in s'.svc && (h in s.svc ==> Fair(s, h))
    ensures Fair(s', h)
  {
    if st.Go? {
      assert ActOk(s, s.acts[st.t]);
      if h in s.svc { LogStep(s, st.t, st.t2, st.more, h); }
    }
  }

  /** A log grows by what the thread has just taken from the queue: dispatched, or
      dropped when the service has been released. */
  ghost predicate Logged(s: State, a: Act, s': State, h: Id)
    requires h in s.svc && h in s'.svc
  {
    var v, v' := s.svc[h], s'.svc[h];
    && (v.release ==> v'.release)
    && (|| (v'.log == v.log && v.queue <= v'.queue)
        || (v.queue != [] && v'.queue == v.queue[1..] && a == Run(h) && v'.log == v.log + [Dispatched(v.queue[0])])
        || (v.queue != [] && v'.queue == v.queue[1..] && a == Dropping(h) && v.release &&
            v'.log == v.log + [Dropped(v.queue[0])]))
  }

  lemma {:induction false} LogStep(s: State, t: Tid, t2: Tid, more: bool, h: Id)
    requires t in s.acts && ActOk(s, s.acts[t]) && h in s.svc
    ensures h in Advance(s, t, t2, more).svc && Logged(s, s.acts[t], Advance(s, t, t2, more), h)
  {
    match s.acts[t]
    case Idle =>
    case Hold(q) =>
    case Run(q) =>
    case Tail(q) =>
    case Swap(q, nq) =>
    case Back(q, c) =>
    case Release(c) =>
    case Delete(c) =>
    case Drop(q) =>
    case Dropping(q) =>
    case Pushing(c, m) =>
    case Init(c) =>
    case Failed(c) =>
    case FailRetire(c) =>
    case Released(c, ret) =>
    case LaunchPush(q, ret) =>
    case Log(c) =>
  }

  /** In every run a message is dropped only when its service has been released. */
  lemma {:induction false} DroppedReleased(run: seq<State>, steps: seq<Step>, k: nat, h: Id)
    requires IsRun(run, steps) && k < |run| && h in run[k].svc
    ensures Fair(run[k], h)
    decreases k
  {
    if k > 0 {
      RunKeeps(run, steps, k - 1);
      assert Transition(run[k - 1], steps[k - 1], run[k]);
      if h in run[k - 1].svc { DroppedReleased(run, steps, k - 1, h); }
      FairStep(run[k - 1], steps[k - 1], run[k], h);
    }
  }

  /** A step that takes a message from the queue of a service that has not been
      released dispatches it. */
  lemma {:induction false} TakenDispatched(s: State, st: Step, s': State, h: Id)
    requires Inv(s) && Transition(s, st, s') && h in s.svc && !s.svc[h].release
    ensures h in s'.svc
    ensures |s'.svc[h].queue| < |s.svc[h].queue| ==>
      s'.svc[h].queue == s.svc[h].queue[1..] && s'.svc[h].log == s.svc[h].log + [Dispatched(s.svc[h].queue[0])]
  {
    if st.Go? {
      assert ActOk(s, s.acts[st.t]);
      LogStep(s, st.t, st.t2, st.more, h);
    }
  }

  // ------------------------------------------------------------------ progress

  /** How many steps of its holder a queue is away from being dispatched or listed. */
  function Rank(a: Act): nat
  {
    match a
    case Run(_) => 0
    case Hold(_) => 1
    case Back(_, _) => 2
    case Swap(_, _) => 3
    case Tail(_) => 4
    case Released(_, _) => 1
    case Init(_) => 2
    case _ => 0
  }

  /** The service runs: registered, and not about to be withdrawn. */
  ghost predicate Serving(s: State, h: Id)
  {
    h in s.svc && s.svc[h].registered && forall t :: t in s.acts ==>
      s.acts[t] != Failed(h) && s.acts[t] != FailRetire(h)
  }

  ghost predicate Moved(s: State, s': State, h: Id, t: Tid)
    requires h in s.svc && h in s'.svc
  {
    || (s.svc[h].queue != [] && s'.svc[h].log == s.svc[h].log + [Dispatched(s.svc[h].queue[0])])
    || Listed(s', h) == Listed(s, h) + 1
    || (t in s.acts && t in s'.acts && Holds(s'.acts[t], KOwn, h) && Rank(s'.acts[t]) < Rank(s.acts[t]))
  }

  /** Whoever holds the queue of a serving service gets on with it: the next step
      dispatches a message, lists the queue, or comes nearer to doing so. */
  lemma {:induction false} HolderMoves(s: State, t: Tid, t2: Tid, h: Id)
    requires Inv(s) && Serving(s, h) && s.svc[h].queue != []
    requires t in s.acts && t2 !in s.acts && Holds(s.acts[t], KOwn, h) && !s.acts[t].Dropping?
    ensures ActOk(s, s.acts[t]) && h in Advance(s, t, t2, false).svc && Moved(s, Advance(s, t, t2, false), h, t)
  {
    assert ActOk(s, s.acts[t]);
    if Links(s.acts[t], h) { HolderLinks(s, t, t2, h); } else { HolderSteps(s, t, t2, h); }
  }

  /** Activities that are about to put the queue into the global list. */
  predicate Links(a: Act, h: Id)
  {
    a.LaunchPush? || a.Drop? || (a.Swap? && a.q == h)
  }

  lemma {:induction false} HolderLinks(s: State, t: Tid, t2: Tid, h: Id)
    requires Inv(s) && Serving(s, h) && t in s.acts && Holds(s.acts[t], KOwn, h) && Links(s.acts[t], h)
    ensures ActOk(s, s.acts[t]) && h in Advance(s, t, t2, false).svc &&
      Listed(Advance(s, t, t2, false), h) == Listed(s, h) + 1
  {
    assert ActOk(s, s.acts[t]) && OkAt(s, h);
    ListedLink(s, h, h);
  }

  lemma {:induction false} HolderSteps(s: State, t: Tid, t2: Tid, h: Id)
    requires Serving(s, h) && s.svc[h].queue != [] && t in s.acts && t2 !in s.acts && ActOk(s, s.acts[t])
    requires Holds(s.acts[t], KOwn, h) && !s.acts[t].Dropping? && !Links(s.acts[t], h)
    ensures h in Advance(s, t, t2, false).svc && Moved(s, Advance(s, t, t2, false), h, t)
  {
    var a := s.acts[t];
    if a.Run? { assert a == Run(h); }
    else if a.Hold? { assert a == Hold(h); }
    else if a.Back? { assert a == Back(h, a.c); }
    else if a.Tail? { assert a == Tail(h); }
    else if a.Swap? { assert a == Swap(a.q, h); }
    else if a.Init? { assert a == Init(h); }
    else { assert a == Released(h, a.ret); }
  }

  // -------------------------------------------------------- every message's chance

  /** Some `n` steps lead from one state to the other. */
  ghost predicate Goes(s: State, s': State, n: nat)
    decreases n
  {
    if n == 0 then s' == s else exists st, s1 :: Transition(s, st, s1) && Goes(s1, s', n - 1)
  }

  /** Some schedule dispatches message `m` of service `h` next. */
  ghost predicate CanDispatch(s: State, h: Id, m: Msg)
    requires h in s.svc
  {
    exists s', n: nat :: Goes(s, s', n) && h in s'.svc && s'.svc[h].log == s.svc[h].log + [Dispatched(m)]
  }

  lemma {:induction false} CanAfter(s: State, st: Step, s1: State, h: Id, m: Msg)
    requires Transition(s, st, s1) && h in s.svc && h in s1.svc && s1.svc[h].log == s.svc[h].log &&
      CanDispatch(s1, h, m)
    ensures CanDispatch(s, h, m)
  {
    var s', n: nat :| Goes(s1, s', n) && h in s'.svc && s'.svc[h].log == s1.svc[h].log + [Dispatched(m)];
    assert Goes(s, s', n + 1);
  }

  lemma {:induction false} Fresh(acts: map<Tid, Act>) returns (t: Tid)
    ensures t !in acts
  {
    var all := Below(|acts.Keys| + 1);
    if all <= acts.Keys { SubsetSize(all, acts.Keys); }
    t :| t in all && t !in acts.Keys;
  }

  /** A queue that waits, of a service that serves. */
  ghost predicate Waits(s: State, h: Id, m: Msg)
  {
    Inv(s) && Serving(s, h) && s.svc[h].queue != [] && s.svc[h].queue[0] == m
  }

  lemma {:induction false} FromRun(s: State, t: Tid, h: Id, m: Msg)
    requires Waits(s, h, m) && t in s.acts && s.acts[t] == Run(h)
    ensures CanDispatch(s, h, m)
  {
    var t2 := Fresh(s.acts);
    var st := Go(t, t2, false);
    var s1 := Advance(s, t, t2, false);
    assert Transition(s, st, s1);
    assert Goes(s1, s1, 0);
    assert Goes(s, s1, 1);
  }

  lemma {:induction false} FromHold(s: State, t: Tid, h: Id, m: Msg)
    requires Waits(s, h, m) && t in s.acts && s.acts[t] == Hold(h)
    ensures CanDispatch(s, h, m)
  {
    var t2 := Fresh(s.acts);
    var st := Go(t, t2, false);
    GoInv(s, t, t2, false);
    var s1 := Advance(s, t, t2, false);
    assert Transition(s, st, s1);
    FromRun(s1, t, h, m);
    CanAfter(s, st, s1, h, m);
  }

  /** A fresh worker takes the first queue of the global list. */
  lemma {:induction false} WorkerTakes(s: State, h: Id, m: Msg) returns (t: Tid, s1: State, s2: State)
    requires Waits(s, h, m) && s.global != []
    ensures t !in s.acts && Transition(s, Spawn(t), s1) && s1.svc == s.svc
    ensures exists st :: Transition(s1, st, s2)
    ensures s2.svc == s.svc && s2.global == s.global[1..] && t in s2.acts && s2.acts[t] == Hold(s.global[0])
    ensures Waits(s2, h, m)
  {
    t := Fresh(s.acts);
    s1 := Become(s, t, Idle);
    EnvInv(s, Spawn(t));
    var t2 := Fresh(s1.acts);
    s2 := Advance(s1, t, t2, false);
    GoInv(s1, t, t2, false);
    assert Transition(s1, Go(t, t2, false), s2);
  }

  lemma {:induction false} FromListed(s: State, h: Id, m: Msg, p: nat)
    requires Waits(s, h, m) && p < |s.global| && s.global[p] == h
    ensures CanDispatch(s, h, m)
    decreases p
  {
    var t, s1, s2 := WorkerTakes(s, h, m);
    if p == 0 { FromHold(s2, t, h, m); } else { FromListed(s2, h, m, p - 1); }
    var st :| Transition(s1, st, s2);
    CanAfter(s1, st, s2, h, m);
    CanAfter(s, Spawn(t), s1, h, m);
  }

  lemma {:induction false} FromHeld(s: State, t: Tid, h: Id, m: Msg)
    requires Waits(s, h, m) && t in s.acts && Holds(s.acts[t], KOwn, h)
    ensures CanDispatch(s, h, m)
    decreases Rank(s.acts[t])
  {
    NotDropping(s, t, h);
    if s.acts[t] == Run(h) {
      FromRun(s, t, h, m);
    } else {
      var t2 := Fresh(s.acts);
      HolderMoves(s, t, t2, h);
      GoInv(s, t, t2, false);
      var s1 := Advance(s, t, t2, false);
      assert Transition(s, Go(t, t2, false), s1);
      LogStep(s, t, t2, false, h);
      StaysServing(s, t, t2, h);
      if Listed(s1, h) == Listed(s, h) + 1 {
        var p :| 0 <= p < |s1.global| && s1.global[p] == h;
        FromListed(s1, h, m, p);
      } else {
        FromHeld(s1, t, h, m);
      }
      CanAfter(s, Go(t, t2, false), s1, h, m);
    }
  }

  lemma {:induction false} NotDropping(s: State, t: Tid, h: Id)
    requires Inv(s) && Serving(s, h) && t in s.acts && Holds(s.acts[t], KOwn, h)
    ensures !s.acts[t].Dropping?
  {
    assert OkAt(s, h) && ActOk(s, s.acts[t]);
  }

  lemma {:induction false} StaysServing(s: State, t: Tid, t2: Tid, h: Id)
    requires Serving(s, h) && t in s.acts && t2 !in s.acts && ActOk(s, s.acts[t]) && Holds(s.acts[t], KOwn, h)
    requires h in Advance(s, t, t2, false).svc
    ensures Serving(Advance(s, t, t2, false), h)
  {
    var a := s.acts[t];
    if a.Back? { UnrefServing(s, t, t2, a.c, Hold(a.q), h); }
    else if a.Init? { UnrefServing(s, t, t2, a.c, Released(a.c, s.svc[a.c].ref > 1), h); }
  }

  lemma {:induction false} UnrefServing(s: State, t: Tid, t2: Tid, c: Id, a: Act, h: Id)
    requires Serving(s, h) && c in s.svc && !a.Failed? && !a.FailRetire?
    ensures Serving(Unref(s, t, t2, c, a), h)
  {
  }

  /** Every message that waits in the queue of a serving service can be dispatched
      next: no reachable state strands it. */
  lemma {:induction false} NeverStranded(s: State, h: Id, m: Msg)
    requires Waits(s, h, m)
    ensures CanDispatch(s, h, m)
  {
    assert OkAt(s, h);
    Ownership(s, h);
    if Listed(s, h) == 1 {
      var p :| 0 <= p < |s.global| && s.global[p] == h;
      FromListed(s, h, m, p);
    } else {
      var t :| t in s.acts && Holds(s.acts[t], KOwn, h);
      FromHeld(s, t, h, m);
    }
  }
}
