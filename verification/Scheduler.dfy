/** Services, their message queues and the workers that dispatch them
    (skynet_mq.c, skynet_server.c), as a machine whose steps are the critical
    sections.  Activities of any number of threads interleave freely.  A
    handle is never issued twice, so it names the service, its context and its
    queue. */
module Scheduler {
  import opened Common

  type Msg = nat
  type Id = nat
  type Tid = nat

  datatype Fate = Dispatched(m: Msg) | Dropped(m: Msg)

  /** A service: registration, context and queue; and what became of messages. */
  datatype Svc = Svc(
    registered: bool, ref: int, inited: bool,
    queue: seq<Msg>, in_global: bool, release: bool, freed: bool,
    accepted: seq<Msg>, log: seq<Fate>)

  /** What a thread is about to do. */
  datatype Act =
    | Idle                       // a worker without a queue
    | Hold(q: Id)                // has a queue, is about to grab its context
    | Run(q: Id)                 // dispatches the queue, holds a reference
    | Tail(q: Id)                // looks for the next queue
    | Swap(q: Id, nq: Id)        // found one, is about to put its own back
    | Back(q: Id, c: Id)         // is about to release the reference to `c`
    | Drop(q: Id)                // is about to release a queue without context
    | Dropping(q: Id)            // drops its messages
    | Pushing(c: Id, m: Msg)     // holds a reference, is about to push
    | Release(c: Id)             // is about to release a reference
    | Delete(c: Id)              // deletes a context without references
    | Init(c: Id)                // created the service, runs its init function
    | Failed(c: Id)              // init failed
    | FailRetire(c: Id)          // ... is about to retire the handle
    | Released(c: Id, ret: bool) // gave up its reference, is about to set `init`
    | LaunchPush(q: Id, ret: bool) // is about to make the queue known to workers
    | Log(c: Id)                 // is about to log the launch

  datatype State = State(svc: map<Id, Svc>, global: seq<Id>, acts: map<Tid, Act>)

  datatype Kind = KOwn | KRef | KDel | KCreate

  /** What an activity holds: a queue, a reference, the duty to delete a context,
      the creation of a service. */
  predicate Holds(a: Act, k: Kind, h: Id)
  {
    match k
    case KOwn =>
      (match a
       case Hold(q) => h == q
       case Run(q) => h == q
       case Tail(q) => h == q
       case Swap(q, nq) => h == q || h == nq
       case Back(q, _) => h == q
       case Drop(q) => h == q
       case Dropping(q) => h == q
       case Init(c) => h == c
       case Failed(c) => h == c
       case FailRetire(c) => h == c
       case Released(c, _) => h == c
       case LaunchPush(q, _) => h == q
       case _ => false)
    case KRef =>
      (match a
       case Run(q) => h == q
       case Tail(q) => h == q
       case Swap(q, _) => h == q
       case Back(_, c) => h == c
       case Pushing(c, _) => h == c
       case Release(c) => h == c
       case Init(c) => h == c
       case Failed(c) => h == c
       case _ => false)
    case KDel => a == Delete(h)
    case KCreate => a == Init(h) || a == Failed(h) || a == FailRetire(h) || (a.Released? && a.c == h)
  }

  function Holders(acts: map<Tid, Act>, k: Kind, h: Id): set<Tid>
  {
    set t | t in acts && Holds(acts[t], k, h)
  }

  function N(acts: map<Tid, Act>, k: Kind, h: Id): nat
  {
    |Holders(acts, k, h)|
  }

  function Has(a: Act, k: Kind, h: Id): nat
  {
    if Holds(a, k, h) then 1 else 0
  }

  function Listed(s: State, h: Id): nat
  {
    multiset(s.global)[h]
  }

  // -------------------------------------------------------------------- steps

  datatype Step =
    | Spawn(t: Tid)
    | Send(t: Tid, h: Id, m: Msg)
    | Kill(t: Tid, h: Id)
    | Create(t: Tid, h: Id)
    | Go(t: Tid, t2: Tid, more: bool)

  predicate Enabled(s: State, st: Step)
  {
    match st
    case Spawn(t) => t !in s.acts
    case Send(t, h, _) => t !in s.acts && h in s.svc && s.svc[h].registered
    case Kill(t, h) => t !in s.acts && h in s.svc && s.svc[h].registered
    case Create(t, h) => t !in s.acts && h !in s.svc
    case Go(t, t2, _) => t in s.acts && t2 !in s.acts
  }

  function NewSvc(): Svc
  {
    Svc(true, 2, false, [], true, false, false, [], [])
  }

  function Set(s: State, h: Id, v: Svc): State
  {
    s.(svc := s.svc[h := v])
  }

  function Become(s: State, t: Tid, a: Act): State
  {
    s.(acts := s.acts[t := a])
  }

  function Link(s: State, h: Id): State
  {
    s.(global := s.global + [h])
  }

  /** The thread gives up a reference to `c` and goes on as `a`; the last
      reference leaves the deletion of the context to activity `t2`. */
  function Unref(s: State, t: Tid, t2: Tid, c: Id, a: Act): State
    requires c in s.svc
  {
    var v := s.svc[c];
    var s1 := Become(Set(s, c, v.(ref := v.ref - 1)), t, a);
    if v.ref == 1 then Become(s1, t2, Delete(c)) else s1
  }

  /** All handles an activity mentions exist. */
  predicate Known(s: State, a: Act)
  {
    match a
    case Idle => true
    case Swap(q, nq) => q in s.svc && nq in s.svc
    case Back(q, c) => q in s.svc && c in s.svc
    case Pushing(c, _) => c in s.svc
    case Release(c) => c in s.svc
    case Delete(c) => c in s.svc
    case Init(c) => c in s.svc
    case Failed(c) => c in s.svc
    case FailRetire(c) => c in s.svc
    case Hold(q) => q in s.svc
    case Run(q) => q in s.svc
    case Tail(q) => q in s.svc
    case Drop(q) => q in s.svc
    case Dropping(q) => q in s.svc
    case Released(c, _) => c in s.svc
    case LaunchPush(q, _) => q in s.svc
    case Log(c) => c in s.svc
  }

  function Apply(s: State, st: Step): State
    requires Enabled(s, st) && (st.Go? ==> Known(s, s.acts[st.t]))
  {
    match st
    case Spawn(t) => Become(s, t, Idle)
    case Send(t, h, m) => Become(Set(s, h, s.svc[h].(ref := s.svc[h].ref + 1)), t, Pushing(h, m))
    case Kill(t, h) => Become(Set(s, h, s.svc[h].(registered := false)), t, Release(h))
    case Create(t, h) => Become(Set(s, h, NewSvc()), t, Init(h))
    case Go(t, t2, more) => Advance(s, t, t2, more)
  }

  /** The next critical section of thread `t`. */
  function Advance(s: State, t: Tid, t2: Tid, more: bool): State
    requires t in s.acts && Known(s, s.acts[t])
  {
    match s.acts[t]
    case Idle =>
      if s.global == [] then s else Become(s.(global := s.global[1..]), t, Hold(s.global[0]))
    case Hold(q) =>
      var v := s.svc[q];
      if v.registered then Become(Set(s, q, v.(ref := v.ref + 1)), t, Run(q)) else Become(s, t, Drop(q))
    case Run(q) =>
      var v := s.svc[q];
      if v.queue == [] then Become(Set(s, q, v.(in_global := false)), t, Release(q))
      else
        var v' := v.(queue := v.queue[1..], log := v.log + [Dispatched(v.queue[0])]);
        Become(Set(s, q, v'), t, if more then Run(q) else Tail(q))
    case Tail(q) =>
      if s.global == [] then Become(s, t, Back(q, q))
      else Become(s.(global := s.global[1..]), t, Swap(q, s.global[0]))
    case Swap(q, nq) => Become(Link(s, q), t, Back(nq, q))
    case Back(q, c) => Unref(s, t, t2, c, Hold(q))
    case Release(c) => Unref(s, t, t2, c, Idle)
    case Delete(c) =>
      var v := s.svc[c];
      var s1 := Become(Set(s, c, v.(release := true)), t, Idle);
      if v.in_global then s1 else Link(s1, c)
    case Drop(q) =>
      if s.svc[q].release then Become(s, t, Dropping(q)) else Become(Link(s, q), t, Idle)
    case Dropping(q) =>
      var v := s.svc[q];
      if v.queue == [] then Become(Set(s, q, v.(in_global := false, freed := true)), t, Idle)
      else Set(s, q, v.(queue := v.queue[1..], log := v.log + [Dropped(v.queue[0])]))
    case Pushing(c, m) =>
      var v := s.svc[c];
      var s1 := Become(Set(s, c, v.(queue := v.queue + [m], accepted := v.accepted + [m], in_global := true)), t,
        Release(c));
      if v.in_global then s1 else Link(s1, c)
    case Init(c) =>
      if more then Become(s, t, Failed(c)) else Unref(s, t, t2, c, Released(c, s.svc[c].ref > 1))
    case Released(c, ret) =>
      Become(if ret then Set(s, c, s.svc[c].(inited := true)) else s, t, LaunchPush(c, ret))
    case Failed(c) => Unref(s, t, t2, c, FailRetire(c))
    case FailRetire(c) =>
      var v := s.svc[c];
      var s1 := Become(s, t, Drop(c));
      if v.registered then Become(Set(s1, c, v.(registered := false)), t2, Release(c)) else s1
    case LaunchPush(q, ret) => Become(Link(s, q), t, if ret then Log(q) else Idle)
    case Log(c) => Become(s, t, Idle)
  }

  // ---------------------------------------------------------------- invariant

  function Messages(log: seq<Fate>): seq<Msg>
  {
    seq(|log|, i requires 0 <= i < |log| => log[i].m)
  }

  /** What holds of a service, given how many activities hold its queue, hold
      references, are to delete its context or are creating it, and how often
      its queue is in the global list. */
  ghost predicate SvcOk(v: Svc, own: nat, refs: nat, dels: nat, creating: nat, listed: nat)
  {
    // references are counted; the last one to go deletes the context, once
    && v.ref == refs + (if v.registered then 1 else 0)
    && dels == (if v.ref == 0 && !v.release then 1 else 0)
    && (v.release ==> v.ref == 0)
    // the queue is in the global list once, or held once, or idle and empty
    && own + listed <= 1
    && (!v.freed && (v.in_global || v.release) ==> own + listed == 1)
    && (!v.in_global && !v.release ==> own + listed == 0 && v.queue == [])
    // it is freed when released, empty, unlinked and unheld
    && (v.freed ==> v.release && v.queue == [] && own + listed == 0 && !v.in_global)
    // before the init function is done only the creator has it
    && creating <= own && (v.registered && !v.inited ==> creating == 1)
    // every accepted message was dispatched or dropped, in order, or waits
    && v.accepted == Messages(v.log) + v.queue
  }

  ghost predicate OkAt(s: State, h: Id)
  {
    if h in s.svc then
      SvcOk(s.svc[h], N(s.acts, KOwn, h), N(s.acts, KRef, h), N(s.acts, KDel, h), N(s.acts, KCreate, h), Listed(s, h))
    else
      Listed(s, h) == 0
  }

  /** What an activity relies on. */
  ghost predicate ActOk(s: State, a: Act)
  {
    && Known(s, a)
    && ((a.Run? || a.Tail? || a.Swap?) ==> s.svc[a.q].inited)
    && (a.Dropping? ==> s.svc[a.q].release)
    && (a.Swap? ==> a.q != a.nq)
    && (a.Released? && !a.ret ==> !s.svc[a.c].registered)
  }

  ghost predicate Inv(s: State)
  {
    (forall h :: OkAt(s, h)) && forall t :: t in s.acts ==> ActOk(s, s.acts[t])
  }

  lemma {:induction false} SetsDiffer(x: set<Tid>, y: set<Tid>, t: Tid)
    requires forall u :: u != t ==> (u in x <==> u in y)
    ensures |y| == |x| + (if t in y then 1 else 0) - (if t in x then 1 else 0)
  {
    var rest := x - {t};
    assert x == rest || x == rest + {t};
    assert y == rest || y == rest + {t};
  }

  /** How the counts change when one activity does. */
  lemma {:induction false} CountBecome(acts: map<Tid, Act>, t: Tid, a: Act, k: Kind, h: Id)
    ensures N(acts[t := a], k, h) == N(acts, k, h) + Has(a, k, h) - (if t in acts then Has(acts[t], k, h) else 0)
  {
    SetsDiffer(Holders(acts, k, h), Holders(acts[t := a], k, h), t);
  }

  lemma {:induction false} CountsBecome(acts: map<Tid, Act>, t: Tid, a: Act, h: Id)
    ensures forall k ::
      N(acts[t := a], k, h) == N(acts, k, h) + Has(a, k, h) - (if t in acts then Has(acts[t], k, h) else 0)
  {
    forall k
      ensures N(acts[t := a], k, h) == N(acts, k, h) + Has(a, k, h) - (if t in acts then Has(acts[t], k, h) else 0) {
      CountBecome(acts, t, a, k, h);
    }
  }

  lemma ListedLink(s: State, q: Id, h: Id)
    ensures Listed(Link(s, q), h) == Listed(s, h) + if h == q then 1 else 0
  {
  }

  lemma ListedPop(s: State, h: Id)
    requires s.global != []
    ensures Listed(s.(global := s.global[1..]), h) == Listed(s, h) - if h == s.global[0] then 1 else 0
  {
    assert s.global == [s.global[0]] + s.global[1..];
  }

  /** An owner that is not the creator owns beside the creator. */
  lemma {:induction false} OwnerBeside(acts: map<Tid, Act>, t: Tid, h: Id)
    requires t in acts && Holds(acts[t], KOwn, h) && !Holds(acts[t], KCreate, h)
    ensures N(acts, KOwn, h) >= N(acts, KCreate, h) + 1
  {
    var c, o := Holders(acts, KCreate, h), Holders(acts, KOwn, h);
    forall u | u in c ensures u in o - {t} { CreatorOwns(acts[u], h); }
    SubsetSize(c, o - {t});
  }

  lemma CreatorOwns(a: Act, h: Id)
    requires Holds(a, KCreate, h)
    ensures Holds(a, KOwn, h)
  {
  }

  /** A service the step has nothing to do with. */
  lemma {:induction false} OtherOk(s: State, s': State, t: Tid, a: Act, h: Id)
    requires OkAt(s, h) && s'.acts == s.acts[t := a]
    requires forall k :: Has(a, k, h) == if t in s.acts then Has(s.acts[t], k, h) else 0
    requires (h in s'.svc <==> h in s.svc) && (h in s.svc ==> s'.svc[h] == s.svc[h]) && Listed(s', h) == Listed(s, h)
    ensures OkAt(s', h)
  {
    CountsBecome(s.acts, t, a, h);
  }

  /** What is never undone. */
  ghost predicate Later(v: Svc, v': Svc)
  {
    (v.inited ==> v'.inited) && (v.release ==> v'.release) && (v'.registered ==> v.registered)
  }

  /** The activities go on relying on what they rely on. */
  lemma {:induction false} ActsOk(s: State, s': State, t: Tid, a: Act)
    requires Inv(s) && s'.acts == s.acts[t := a] && ActOk(s', a)
    requires forall h :: h in s.svc ==> h in s'.svc && Later(s.svc[h], s'.svc[h])
    ensures forall u :: u in s'.acts ==> ActOk(s', s'.acts[u])
  {
    forall u | u in s'.acts ensures ActOk(s', s'.acts[u]) { if u != t { assert ActOk(s, s.acts[u]); } }
  }

  lemma {:induction false} HoldInv(s: State, t: Tid)
    requires Inv(s) && t in s.acts && s.acts[t].Hold?
    ensures ActOk(s, s.acts[t]) && Inv(Advance(s, t, t, true))
  {
    assert ActOk(s, s.acts[t]);
    var q := s.acts[t].q;
    var s' := Advance(s, t, t, true);
    var a := s'.acts[t];
    assert OkAt(s, q);
    OwnerBeside(s.acts, t, q);
    forall h ensures OkAt(s', h) {
      assert OkAt(s, h);
      if h == q { CountsBecome(s.acts, t, a, h); } else { OtherOk(s, s', t, a, h); }
    }
    ActsOk(s, s', t, a);
  }

  lemma {:induction false} IdleInv(s: State, t: Tid)
    requires Inv(s) && t in s.acts && s.acts[t].Idle?
    ensures Inv(Advance(s, t, t, true))
  {
    if s.global != [] {
      var q := s.global[0];
      var s' := Advance(s, t, t, true);
      assert OkAt(s, q);
      ListedPop(s, q);
      forall h ensures OkAt(s', h) {
        assert OkAt(s, h);
        ListedPop(s, h);
        if h == q { CountsBecome(s.acts, t, Hold(q), h); } else { OtherOk(s, s', t, Hold(q), h); }
      }
      ActsOk(s, s', t, Hold(q));
    }
  }

  lemma MessagesSnoc(log: seq<Fate>, f: Fate)
    ensures Messages(log + [f]) == Messages(log) + [f.m]
  {
  }

  lemma {:induction false} PopKeeps(v: Svc, f: Fate)
    requires v.accepted == Messages(v.log) + v.queue && v.queue != [] && f.m == v.queue[0]
    ensures v.accepted == Messages(v.log + [f]) + v.queue[1..]
  {
    MessagesSnoc(v.log, f);
    assert v.queue == [v.queue[0]] + v.queue[1..];
  }

  lemma {:induction false} RunInv(s: State, t: Tid, more: bool)
    requires Inv(s) && t in s.acts && s.acts[t].Run?
    ensures ActOk(s, s.acts[t]) && Inv(Advance(s, t, t, more))
  {
    assert ActOk(s, s.acts[t]);
    var q := s.acts[t].q;
    var s' := Advance(s, t, t, more);
    var a := s'.acts[t];
    assert OkAt(s, q);
    var v := s.svc[q];
    OwnerBeside(s.acts, t, q);
    if v.queue != [] { PopKeeps(v, Dispatched(v.queue[0])); }
    forall h ensures OkAt(s', h) {
      assert OkAt(s, h);
      if h == q { CountsBecome(s.acts, t, a, h); HolderCounts(s.acts, t, KRef, h); } else { OtherOk(s, s', t, a, h); }
    }
    ActsOk(s, s', t, a);
  }

  lemma {:induction false} HolderCounts(acts: map<Tid, Act>, t: Tid, k: Kind, h: Id)
    requires t in acts && Holds(acts[t], k, h)
    ensures N(acts, k, h) >= 1
  {
    assert t in Holders(acts, k, h);
  }

  lemma {:induction false} TailInv(s: State, t: Tid)
    requires Inv(s) && t in s.acts && s.acts[t].Tail?
    ensures ActOk(s, s.acts[t]) && Inv(Advance(s, t, t, true))
  {
    assert ActOk(s, s.acts[t]);
    var q := s.acts[t].q;
    var s' := Advance(s, t, t, true);
    var a := s'.acts[t];
    assert OkAt(s, q);
    HolderCounts(s.acts, t, KOwn, q);
    if s.global != [] { assert OkAt(s, s.global[0]); ListedPop(s, s.global[0]); }
    forall h ensures OkAt(s', h) {
      assert OkAt(s, h);
      if s.global != [] { ListedPop(s, h); }
      if s.global != [] && h == s.global[0] { CountsBecome(s.acts, t, a, h); } else { OtherOk(s, s', t, a, h); }
    }
    ActsOk(s, s', t, a);
  }

  /** Steps that put a held queue into the global list. */
  lemma {:induction false} LinkInv(s: State, t: Tid, q: Id, a: Act)
    requires Inv(s) && t in s.acts && q in s.svc && Holds(s.acts[t], KOwn, q) && !Holds(s.acts[t], KCreate, q)
    requires forall h, k :: Has(a, k, h) == Has(s.acts[t], k, h) - if k == KOwn && h == q then 1 else 0
    requires ActOk(Become(Link(s, q), t, a), a)
    ensures Inv(Become(Link(s, q), t, a))
  {
    var s' := Become(Link(s, q), t, a);
    assert OkAt(s, q);
    OwnerBeside(s.acts, t, q);
    forall h ensures OkAt(s', h) {
      assert OkAt(s, h);
      ListedLink(s, q, h);
      if h == q { CountsBecome(s.acts, t, a, h); } else { OtherOk(s, s', t, a, h); }
    }
    ActsOk(s, s', t, a);
  }

  /** Steps that give up a reference. */
  lemma {:induction false} UnrefInv(s: State, t: Tid, t2: Tid, c: Id, a: Act)
    requires Inv(s) && t in s.acts && t2 !in s.acts && c in s.svc && Holds(s.acts[t], KRef, c)
    requires forall h, k :: Has(a, k, h) == Has(s.acts[t], k, h) - if k == KRef && h == c then 1 else 0
    requires ActOk(s, a) && !a.Run? && !a.Tail? && !a.Swap? && !a.Dropping?
    ensures Inv(Unref(s, t, t2, c, a))
  {
    var v := s.svc[c];
    var s1 := Become(Set(s, c, v.(ref := v.ref - 1)), t, a);
    assert OkAt(s, c);
    HolderCounts(s.acts, t, KRef, c);
    CountsBecome(s.acts, t, a, c);
    forall h | h != c ensures OkAt(s1, h) { OtherOk(s, s1, t, a, h); }
    ActsOk(s, s1, t, a);
    if v.ref == 1 { DeleteSpawned(s1, t2, c); }
  }

  /** Somebody is to delete the context whose last reference went. */
  lemma {:induction false} DeleteSpawned(s: State, t2: Tid, c: Id)
    requires t2 !in s.acts && c in s.svc && (forall h :: h != c ==> OkAt(s, h)) && forall u :: u in s.acts ==>
      ActOk(s, s.acts[u])
    requires N(s.acts, KDel, c) == 0 &&
      SvcOk(s.svc[c], N(s.acts, KOwn, c), N(s.acts, KRef, c), 1, N(s.acts, KCreate, c), Listed(s, c))
    ensures Inv(Become(s, t2, Delete(c)))
  {
    var s' := Become(s, t2, Delete(c));
    CountsBecome(s.acts, t2, Delete(c), c);
    forall h | h != c ensures OkAt(s', h) { OtherOk(s, s', t2, Delete(c), h); }
    forall u | u in s'.acts ensures ActOk(s', s'.acts[u]) { if u != t2 { assert ActOk(s, s.acts[u]); } }
  }

  lemma {:induction false} DeleteInv(s: State, t: Tid)
    requires Inv(s) && t in s.acts && s.acts[t].Delete?
    ensures ActOk(s, s.acts[t]) && Inv(Advance(s, t, t, true))
  {
    assert ActOk(s, s.acts[t]);
    var c := s.acts[t].c;
    var s' := Advance(s, t, t, true);
    assert OkAt(s, c);
    HolderCounts(s.acts, t, KDel, c);
    forall h ensures OkAt(s', h) {
      assert OkAt(s, h);
      ListedLink(s, c, h);
      if h == c { CountsBecome(s.acts, t, Idle, h); } else { OtherOk(s, s', t, Idle, h); }
    }
    ActsOk(s, s', t, Idle);
  }

  lemma {:induction false} DropInv(s: State, t: Tid)
    requires Inv(s) && t in s.acts && s.acts[t].Drop?
    ensures ActOk(s, s.acts[t]) && Inv(Advance(s, t, t, true))
  {
    assert ActOk(s, s.acts[t]);
    var q := s.acts[t].q;
    if s.svc[q].release {
      var s' := Become(s, t, Dropping(q));
      forall h ensures OkAt(s', h) { assert OkAt(s, h); OtherOk(s, s', t, Dropping(q), h); }
      ActsOk(s, s', t, Dropping(q));
    } else {
      LinkInv(s, t, q, Idle);
    }
  }

  lemma {:induction false} DroppingInv(s: State, t: Tid)
    requires Inv(s) && t in s.acts && s.acts[t].Dropping?
    ensures ActOk(s, s.acts[t]) && Inv(Advance(s, t, t, true))
  {
    assert ActOk(s, s.acts[t]);
    var q := s.acts[t].q;
    var s' := Advance(s, t, t, true);
    var a := s'.acts[t];
    assert OkAt(s, q);
    var v := s.svc[q];
    OwnerBeside(s.acts, t, q);
    if v.queue != [] { PopKeeps(v, Dropped(v.queue[0])); }
    assert s'.acts == s.acts[t := a];
    forall h ensures OkAt(s', h) {
      assert OkAt(s, h);
      if h == q { CountsBecome(s.acts, t, a, h); } else { OtherOk(s, s', t, a, h); }
    }
    ActsOk(s, s', t, a);
  }

  lemma {:induction false} PushingInv(s: State, t: Tid)
    requires Inv(s) && t in s.acts && s.acts[t].Pushing?
    ensures ActOk(s, s.acts[t]) && Inv(Advance(s, t, t, true))
  {
    assert ActOk(s, s.acts[t]);
    var Pushing(c, m) := s.acts[t];
    var s' := Advance(s, t, t, true);
    assert OkAt(s, c);
    PushedOk(s, s', t, c, m);
    forall h ensures OkAt(s', h) {
      assert OkAt(s, h);
      ListedLink(s, c, h);
      if h != c { OtherOk(s, s', t, Release(c), h); }
    }
    ActsOk(s, s', t, Release(c));
  }

  lemma {:induction false} PushedOk(s: State, s': State, t: Tid, c: Id, m: Msg)
    requires OkAt(s, c) && t in s.acts && s.acts[t] == Pushing(c, m) && c in s.svc && s' == Advance(s, t, t, true)
    ensures OkAt(s', c)
  {
    var v := s.svc[c];
    HolderCounts(s.acts, t, KRef, c);
    CountsBecome(s.acts, t, Release(c), c);
    ListedLink(s, c, c);
    assert v.accepted + [m] == Messages(v.log) + (v.queue + [m]);
  }

  lemma {:induction false} InitInv(s: State, t: Tid, t2: Tid, more: bool)
    requires Inv(s) && t in s.acts && t2 !in s.acts && s.acts[t].Init?
    ensures ActOk(s, s.acts[t]) && Inv(Advance(s, t, t2, more))
  {
    assert ActOk(s, s.acts[t]);
    var c := s.acts[t].c;
    if more {
      InitFailedInv(s, t, c);
    } else {
      assert OkAt(s, c);
      HolderCounts(s.acts, t, KRef, c);
      UnrefInv(s, t, t2, c, Released(c, s.svc[c].ref > 1));
    }
  }

  /** `init` is set, if the release has left a context. */
  lemma {:induction false} ReleasedInv(s: State, t: Tid)
    requires Inv(s) && t in s.acts && s.acts[t].Released?
    ensures ActOk(s, s.acts[t]) && Inv(Advance(s, t, t, true))
  {
    assert ActOk(s, s.acts[t]);
    var s' := Advance(s, t, t, true);
    var c, a := s.acts[t].c, s'.acts[t];
    forall h ensures OkAt(s', h) {
      assert OkAt(s, h);
      if h == c { CountsBecome(s.acts, t, a, h); HolderCounts(s.acts, t, KCreate, h); }
        else { OtherOk(s, s', t, a, h); }
    }
    ActsOk(s, s', t, a);
  }

  lemma {:induction false} LogInv(s: State, t: Tid)
    requires Inv(s) && t in s.acts && s.acts[t].Log?
    ensures Inv(Become(s, t, Idle))
  {
    var s' := Become(s, t, Idle);
    forall h ensures OkAt(s', h) { assert OkAt(s, h); OtherOk(s, s', t, Idle, h); }
    ActsOk(s, s', t, Idle);
  }

  lemma {:induction false} InitFailedInv(s: State, t: Tid, c: Id)
    requires Inv(s) && t in s.acts && s.acts[t] == Init(c) && c in s.svc
    ensures Inv(Become(s, t, Failed(c)))
  {
    var s' := Become(s, t, Failed(c));
    forall h ensures OkAt(s', h) { assert OkAt(s, h); OtherOk(s, s', t, Failed(c), h); }
    ActsOk(s, s', t, Failed(c));
  }

  lemma {:induction false} AtMostOne(x: set<Tid>, t: Tid, u: Tid)
    requires |x| <= 1 && t in x && u in x
    ensures t == u
  {
    assert x == (x - {t}) + {t};
    assert u !in x - {t};
  }

  /** While the creator has the queue nobody else dispatches it. */
  lemma {:induction false} CreatorAlone(s: State, t: Tid, c: Id)
    requires t in s.acts && Holds(s.acts[t], KOwn, c) && N(s.acts, KOwn, c) <= 1
    ensures forall u :: u in s.acts && u != t ==> !Holds(s.acts[u], KOwn, c)
  {
    forall u | u in s.acts && u != t ensures !Holds(s.acts[u], KOwn, c) {
      if Holds(s.acts[u], KOwn, c) { AtMostOne(Holders(s.acts, KOwn, c), t, u); }
    }
  }

  lemma {:induction false} FailRetireInv(s: State, t: Tid, t2: Tid)
    requires Inv(s) && t in s.acts && t2 !in s.acts && s.acts[t].FailRetire?
    ensures ActOk(s, s.acts[t]) && Inv(Advance(s, t, t2, true))
  {
    assert ActOk(s, s.acts[t]);
    var c := s.acts[t].c;
    assert OkAt(s, c);
    HolderCounts(s.acts, t, KCreate, c);
    CountsBecome(s.acts, t, Drop(c), c);
    if s.svc[c].registered {
      UnregisteredInv(s, t, t2, c);
    } else {
      var s' := Become(s, t, Drop(c));
      forall h | h != c ensures OkAt(s', h) { assert OkAt(s, h); OtherOk(s, s', t, Drop(c), h); }
      ActsOk(s, s', t, Drop(c));
    }
  }

  lemma {:induction false} UnregisteredInv(s: State, t: Tid, t2: Tid, c: Id)
    requires Inv(s) && t in s.acts && t2 !in s.acts && s.acts[t] == FailRetire(c) && c in s.svc && s.svc[c].registered
    requires N(s.acts, KCreate, c) >= 1
    ensures Inv(Become(Set(Become(s, t, Drop(c)), c, s.svc[c].(registered := false)), t2, Release(c)))
  {
    var s1 := Become(Set(s, c, s.svc[c].(registered := false)), t, Drop(c));
    var s' := Become(s1, t2, Release(c));
    ActsOk(s, s1, t, Drop(c));
    assert OkAt(s, c);
    CountsBecome(s.acts, t, Drop(c), c);
    CountsBecome(s1.acts, t2, Release(c), c);
    forall h | h != c ensures OkAt(s', h) { UnregisteredOther(s, s1, s', t, t2, c, h); }
    forall u | u in s'.acts ensures ActOk(s', s'.acts[u]) { if u != t2 { assert ActOk(s1, s1.acts[u]); } }
  }

  lemma {:induction false} UnregisteredOther(s: State, s1: State, s': State, t: Tid, t2: Tid, c: Id, h: Id)
    requires Inv(s) && t in s.acts && t2 !in s.acts && s.acts[t] == FailRetire(c) && c in s.svc && h != c
    requires s1 == Become(Set(s, c, s.svc[c].(registered := false)), t, Drop(c)) && s' == Become(s1, t2, Release(c))
    ensures OkAt(s', h)
  {
    assert OkAt(s, h);
    OtherOk(s, s1, t, Drop(c), h);
    OtherOk(s1, s', t2, Release(c), h);
  }

  // -------------------------------------------------------------------- runs

  lemma {:induction false} GoInv(s: State, t: Tid, t2: Tid, more: bool)
    requires Inv(s) && t in s.acts && t2 !in s.acts
    ensures ActOk(s, s.acts[t]) && Inv(Advance(s, t, t2, more))
  {
    assert ActOk(s, s.acts[t]);
    match s.acts[t]
    case Idle => IdleInv(s, t);
    case Hold(q) => HoldInv(s, t);
    case Run(q) => RunInv(s, t, more);
    case Tail(q) => TailInv(s, t);
    case Swap(q, nq) => LinkInv(s, t, q, Back(nq, q));
    case Back(q, c) => UnrefInv(s, t, t2, c, Hold(q));
    case Release(c) => UnrefInv(s, t, t2, c, Idle);
    case Delete(c) => DeleteInv(s, t);
    case Drop(q) => DropInv(s, t);
    case Dropping(q) => DroppingInv(s, t);
    case Pushing(c, m) => PushingInv(s, t);
    case Init(c) => InitInv(s, t, t2, more);
    case Failed(c) => UnrefInv(s, t, t2, c, FailRetire(c));
    case FailRetire(c) => FailRetireInv(s, t, t2);
    case Released(c, _) => ReleasedInv(s, t);
    case LaunchPush(q, ret) => LinkInv(s, t, q, if ret then Log(q) else Idle);
    case Log(c) => LogInv(s, t);
  }

  /** A step that starts activity `t` and touches one service at most. */
  lemma {:induction false} StartInv(s: State, s': State, t: Tid, a: Act, c: Id)
    requires Inv(s) && t !in s.acts && s'.acts == s.acts[t := a] && s'.global == s.global && ActOk(s', a) && OkAt(s', c)
    requires forall h :: h != c ==> (h in s'.svc <==> h in s.svc) && (h in s.svc ==> s'.svc[h] == s.svc[h])
    requires forall h, k :: h != c ==> !Holds(a, k, h)
    requires c in s.svc ==> c in s'.svc && Later(s.svc[c], s'.svc[c])
    ensures Inv(s')
  {
    forall h ensures OkAt(s', h) {
      assert OkAt(s, h);
      if h != c { OtherOk(s, s', t, a, h); }
    }
    ActsOk(s, s', t, a);
  }

  lemma {:induction false} EnvInv(s: State, st: Step)
    requires Inv(s) && Enabled(s, st) && !st.Go?
    ensures Inv(Apply(s, st))
  {
    var s' := Apply(s, st);
    var t, a := st.t, s'.acts[st.t];
    var c := if st.Spawn? then 0 else st.h;
    assert OkAt(s, c);
    if st.Create? { NobodyHolds(s, c); }
    CountsBecome(s.acts, t, a, c);
    StartInv(s, s', t, a, c);
  }

  lemma {:induction false} NobodyHolds(s: State, c: Id)
    requires Inv(s) && c !in s.svc
    ensures forall k :: N(s.acts, k, c) == 0
  {
    forall k ensures N(s.acts, k, c) == 0 {
      forall t | t in s.acts ensures !Holds(s.acts[t], k, c) { assert ActOk(s, s.acts[t]); }
      assert Holders(s.acts, k, c) == {};
    }
  }

  ghost predicate IsRun(run: seq<State>, steps: seq<Step>)
  {
    && |run| == |steps| + 1 && run[0] == State(map[], [], map[])
    && forall i, j :: 0 <= i < |steps| && j == i + 1 ==> Transition(run[i], steps[i], run[j])
  }

  ghost predicate Transition(s: State, st: Step, s': State)
  {
    Enabled(s, st) && (st.Go? ==> Known(s, s.acts[st.t])) && s' == Apply(s, st)
  }

  /** Every accepted message was dispatched or dropped, in the order of
      acceptance, or waits in the queue; every reference is counted. */
  ghost predicate Accounted(s: State, h: Id)
    requires h in s.svc
  {
    var v := s.svc[h];
    v.accepted == Messages(v.log) + v.queue && v.ref == N(s.acts, KRef, h) + if v.registered then 1 else 0
  }

  /** In every state of every run, however threads interleave, the invariant
      holds. */
  lemma {:induction false} RunKeeps(run: seq<State>, steps: seq<Step>, k: nat)
    requires IsRun(run, steps) && k < |run|
    ensures Inv(run[k])
    ensures forall h :: h in run[k].svc ==> Accounted(run[k], h)
  {
    if k > 0 {
      RunKeeps(run, steps, k - 1);
      var s, st := run[k - 1], steps[k - 1];
      assert Transition(s, st, run[k]);
      if st.Go? { GoInv(s, st.t, st.t2, st.more); } else { EnvInv(s, st); }
    }
    assert Inv(run[k]);
    forall h | h in run[k].svc ensures Accounted(run[k], h) { assert OkAt(run[k], h); }
  }

  /** A live queue is held by one thread, or in the global list once, or idle:
      then it is empty and nobody dispatches it.  So no service is dispatched by
      two threads and no message is stranded. */
  lemma {:induction false} Ownership(s: State, h: Id)
    requires Inv(s) && h in s.svc && !s.svc[h].freed
    ensures var v := s.svc[h];
      || (Listed(s, h) == 1 && forall t :: t in s.acts ==> !Holds(s.acts[t], KOwn, h))
      || (Listed(s, h) == 0 && exists t :: t in s.acts && Holds(s.acts[t], KOwn, h) &&
                                forall u :: u in s.acts && u != t ==> !Holds(s.acts[u], KOwn, h))
      || (Listed(s, h) == 0 && !v.in_global && v.queue == [] && forall t :: t in s.acts ==> !Holds(s.acts[t], KOwn, h))
  {
    assert OkAt(s, h);
    var hs := Holders(s.acts, KOwn, h);
    forall t | t in s.acts ensures Holds(s.acts[t], KOwn, h) <==> t in hs { }
    if N(s.acts, KOwn, h) == 1 {
      var t :| t in hs;
      CreatorAlone(s, t, h);
    } else {
      assert hs == {};
    }
  }

  /** Dispatching needs the queue, a reference and an initialised context. */
  lemma {:induction false} DispatchSafe(s: State, t: Tid)
    requires Inv(s) && t in s.acts && s.acts[t].Run?
    ensures var q := s.acts[t].q;
      q in s.svc && s.svc[q].inited && s.svc[q].ref > 0 && !s.svc[q].release && !s.svc[q].freed && Listed(s, q) == 0 &&
      forall u :: u in s.acts && u != t ==> !Holds(s.acts[u], KOwn, q)
  {
    var q := s.acts[t].q;
    assert ActOk(s, s.acts[t]) && OkAt(s, q);
    HolderCounts(s.acts, t, KRef, q);
    HolderCounts(s.acts, t, KOwn, q);
    CreatorAlone(s, t, q);
  }

  /** What the thread holds of service `h` counts. */
  lemma {:induction false} HeldCounts(s: State, t: Tid, h: Id)
    requires t in s.acts
    ensures forall k :: Holds(s.acts[t], k, h) ==> N(s.acts, k, h) >= 1
  {
    forall k | Holds(s.acts[t], k, h) ensures N(s.acts, k, h) >= 1 { HolderCounts(s.acts, t, k, h); }
  }

  /** No step touches a freed queue; a queue is freed by the step that finds it
      empty, after its context's last reference went. */
  lemma {:induction false} FreedOnce(s: State, st: Step, s': State, h: Id)
    requires Inv(s) && Transition(s, st, s') && h in s.svc
    ensures h in s'.svc && (s.svc[h].freed ==> s'.svc[h] == s.svc[h])
    ensures !s.svc[h].freed && s'.svc[h].freed ==>
      st.Go? && s.acts[st.t] == Dropping(h) && s.svc[h].queue == [] && s.svc[h].ref == 0 && Listed(s, h) == 0
  {
    if st.Go? { AdvanceFrees(s, st.t, st.t2, st.more, h); } else { assert OkAt(s, h); }
  }

  lemma {:induction false} AdvanceFrees(s: State, t: Tid, t2: Tid, more: bool, h: Id)
    requires Inv(s) && t in s.acts && Known(s, s.acts[t]) && h in s.svc
    ensures var s' := Advance(s, t, t2, more);
      && h in s'.svc && (s.svc[h].freed ==> s'.svc[h] == s.svc[h])
      && (!s.svc[h].freed && s'.svc[h].freed ==>
            s.acts[t] == Dropping(h) && s.svc[h].queue == [] && s.svc[h].ref == 0 && Listed(s, h) == 0)
  {
    assert OkAt(s, h) && ActOk(s, s.acts[t]);
    HeldCounts(s, t, h);
  }

  /** What happened to messages is never undone: messages are accepted at the
      end, and dispatched or dropped, in the order in which they were accepted. */
  lemma {:induction false} HistoryGrows(s: State, st: Step, s': State, h: Id)
    requires Inv(s) && Transition(s, st, s') && h in s.svc
    ensures h in s'.svc && s.svc[h].log <= s'.svc[h].log && s.svc[h].accepted <= s'.svc[h].accepted
  {
    if st.Go? && ActOk(s, s.acts[st.t]) { AdvanceGrows(s, st.t, st.t2, st.more, h); }
  }

  lemma {:induction false} AdvanceGrows(s: State, t: Tid, t2: Tid, more: bool, h: Id)
    requires t in s.acts && Known(s, s.acts[t]) && h in s.svc
    ensures var s' := Advance(s, t, t2, more);
      h in s'.svc && s.svc[h].log <= s'.svc[h].log && s.svc[h].accepted <= s'.svc[h].accepted
  {
  }

  // -------------------------------------------------- contexts and references

  /** The context that the next step of an activity reads or writes. */
  function Touched(a: Act): set<Id>
  {
    match a
    case Run(q) => {q}
    case Back(_, c) => {c}
    case Pushing(c, _) => {c}
    case Release(c) => {c}
    case Delete(c) => {c}
    case Init(c) => {c}
    case Released(c, ret) => if ret then {c} else {}
    case Failed(c) => {c}
    case Log(c) => {c}
    case _ => {}
  }

  /** A context is touched with a reference, or by the one that deletes it, except
      that the creator of a service touches it after giving up its reference: then
      there is none left if and only if the handle has been retired and nobody
      else holds a reference. */
  lemma {:induction false} UnreferencedIff(s: State, t: Tid, c: Id)
    requires Inv(s) && t in s.acts && c in Touched(s.acts[t])
    ensures c in s.svc
    ensures s.svc[c].ref == 0 && s.acts[t] != Delete(c) <==>
      (s.acts[t].Released? || s.acts[t].Log?) && !s.svc[c].registered && forall u :: u in s.acts ==>
        !Holds(s.acts[u], KRef, c)
  {
    assert ActOk(s, s.acts[t]) && OkAt(s, c);
    HeldCounts(s, t, c);
    forall u | u in s.acts && Holds(s.acts[u], KRef, c)
      ensures N(s.acts, KRef, c) >= 1 { HolderCounts(s.acts, u, KRef, c); }
    if forall u :: u in s.acts ==> !Holds(s.acts[u], KRef, c) { assert Holders(s.acts, KRef, c) == {}; }
  }

  /** A run in which that happens: between the creator's release and its write the
      new service is killed, and its context deleted. */
  lemma {:induction false} InitAfterFree(h: Id) returns (run: seq<State>, steps: seq<Step>)
    ensures IsRun(run, steps)
    ensures var s := run[|run| - 1];
      h in s.svc && s.svc[h].release && s.svc[h].ref == 0 && 0 in s.acts && s.acts[0] == Released(h, true)
  {
    steps := [Create(0, h), Go(0, 1, false), Kill(1, h), Go(1, 2, true), Go(2, 3, true)];
    var s0 := State(map[], [], map[]);
    var s1 := Apply(s0, steps[0]);
    var s2 := Apply(s1, steps[1]);
    var s3 := Apply(s2, steps[2]);
    var s4 := Apply(s3, steps[3]);
    var s5 := Apply(s4, steps[4]);
    run := [s0, s1, s2, s3, s4, s5];
  }
}
