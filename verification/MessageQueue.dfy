/** The message queue of a service (skynet_mq.c): a ring buffer that doubles
    when it is full, and the flag that says whether workers know of it. */
module MessageQueue {

  /** The messages of a ring buffer, oldest first. */
  ghost function Ring<T>(a: seq<T>, head: nat, tail: nat): seq<T>
    requires head < |a| && tail < |a|
  {
    if head <= tail then a[head..tail] else a[head..] + a[..tail]
  }

  /** Slot `i` places after `head`. */
  function Wrap(head: nat, i: nat, cap: nat): nat
    requires head < cap && i < cap
  {
    if head + i < cap then head + i else head + i - cap
  }

  lemma WrapMod(head: nat, i: nat, cap: nat)
    requires head < cap && i < cap
    ensures (head + i) % cap == Wrap(head, i, cap)
  {
    var x := head + i;
    if x < cap { Small(x, cap); } else { Small(x - cap, cap); }
  }

  lemma Small(x: nat, n: nat)
    requires x < n
    ensures x % n == x && (x + n) % n == x
  {
    assert x == n * 0 + x && x + n == n * 1 + x;
  }

  /** Every slot of a full ring, oldest first. */
  lemma {:induction false} FullRing<T>(a: seq<T>, head: nat, r: seq<T>)
    requires head < |a| && |r| == |a| && forall i :: 0 <= i < |a| ==> r[i] == a[Wrap(head, i, |a|)]
    ensures r == a[head..] + a[..head]
  {
  }

  class Queue<T(0)> {
    var queue: array<T>
    var head: nat
    var tail: nat
    var in_global: bool
    var release: bool

    ghost predicate Valid()
      reads this
    {
      head < queue.Length && tail < queue.Length
    }

    ghost function Contents(): seq<T>
      requires Valid()
      reads this, queue
    {
      Ring(queue[..], head, tail)
    }

    /** `skynet_mq_create`: the queue counts as known while its service starts. */
    constructor (cap: nat)
      requires cap > 0
      ensures Valid() && Contents() == [] && in_global && !release && fresh(queue)
    {
      queue := new T[cap];
      head, tail, in_global, release := 0, 0, true, false;
    }

    /** `expand_queue`, of a ring whose slots are all in use. */
    method ExpandQueue()
      requires Valid() && head == tail
      modifies this
      ensures Valid() && fresh(queue) && queue.Length == 2 * old(queue.Length)
      ensures Contents() == old(queue[head..] + queue[..head])
      ensures in_global == old(in_global) && release == old(release)
    {
      var cap := queue.Length;
      var new_queue := new T[cap * 2];
      for i := 0 to cap
        modifies new_queue
        invariant forall k :: 0 <= k < i ==> new_queue[k] == queue[Wrap(head, k, cap)]
      {
        WrapMod(head, i, cap);
        new_queue[i] := queue[(head + i) % cap];
      }
      FullRing(queue[..], head, new_queue[..cap]);
      head, tail, queue := 0, cap, new_queue;
    }

    /** `skynet_mq_push`; tells whether the queue has to go to the global list. */
    method Push(message: T) returns (link: bool)
      requires Valid()
      modifies this, queue
      ensures Valid() && (queue == old(queue) || fresh(queue))
      ensures Contents() == old(Contents()) + [message]
      ensures link == !old(in_global) && in_global && release == old(release)
    {
      ghost var a := queue[..];
      ghost var t0 := tail;
      queue[tail] := message;
      assert queue[..] == a[t0 := message];
      tail := tail + 1;
      if tail >= queue.Length { tail := 0; }
      PushRing(a, head, t0, message, tail);
      if head == tail {
        assert old(Contents()) + [message] == queue[head..] + queue[..head];
        ExpandQueue();
      }
      link := !in_global;
      in_global := true;
    }

    /** `skynet_mq_pop`; an empty queue is no longer known to workers. */
    method Pop() returns (ok: bool, message: T)
      requires Valid()
      modifies this
      ensures Valid() && queue == old(queue) && release == old(release)
      ensures ok == (old(Contents()) != []) && in_global == (ok && old(in_global))
      ensures ok ==> old(Contents()) == [message] + Contents()
      ensures !ok ==> Contents() == []
    {
      message := *;
      if head != tail {
        message := queue[head];
        PopRing(queue[..], head, tail);
        head := head + 1;
        if head >= queue.Length { head := 0; }
        ok := true;
      } else {
        in_global := false;
        ok := false;
      }
    }

    /** `skynet_mq_length` */
    method Length() returns (n: nat)
      requires Valid()
      ensures n == |Contents()|
    {
      n := if head <= tail then tail - head else tail + queue.Length - head;
    }

    /** `skynet_mq_mark_release`; tells whether the queue has to go to the list. */
    method MarkRelease() returns (link: bool)
      requires Valid() && !release
      modifies this
      ensures Valid() && release && link == !in_global
      ensures queue == old(queue) && in_global == old(in_global) && Contents() == old(Contents())
    {
      release := true;
      link := !in_global;
    }
  }

  lemma {:induction false} PushRing<T>(a: seq<T>, head: nat, tail: nat, m: T, tail': nat)
    requires head < |a| && tail < |a| && tail' == if tail + 1 == |a| then 0 else tail + 1
    ensures var b := a[tail := m];
      Ring(a, head, tail) + [m] == if head == tail' then b[head..] + b[..head] else Ring(b, head, tail')
  {
    var b := a[tail := m];
    assert a[..tail] + [m] == b[..tail + 1];
    if head <= tail {
      assert a[head..tail] + [m] == b[head..tail + 1];
    } else {
      assert a[head..] == b[head..];
    }
  }

  lemma {:induction false} PopRing<T>(a: seq<T>, head: nat, tail: nat)
    requires head < |a| && tail < |a| && head != tail
    ensures Ring(a, head, tail) == [a[head]] + Ring(a, if head + 1 == |a| then 0 else head + 1, tail)
  {
    if head < tail {
      assert a[head..tail] == [a[head]] + a[head + 1..tail];
    } else {
      assert a[head..] == [a[head]] + a[head + 1..];
    }
  }
}
