/** The registry of service handles (skynet_handle.c): a table of slots that
    doubles when it is full. */
module HandleRegistry {
  import opened Common

  const MASK: nat := 0x100_0000    // number of handles of one harbor

  function Pow2(k: nat): nat
  {
    if k == 0 then 1 else 2 * Pow2(k - 1)
  }

  lemma {:induction false} Pow2Split(k: nat, n: nat)
    requires k <= n
    ensures Pow2(n) == Pow2(k) * Pow2(n - k)
    decreases k
  {
    if k > 0 {
      Pow2Split(k - 1, n - 1);
      assert 2 * (Pow2(k - 1) * Pow2(n - k)) == (2 * Pow2(k - 1)) * Pow2(n - k);
    }
  }

  lemma Pow2Positive(k: nat)
    ensures Pow2(k) > 0
  {
  }

  lemma Pow2Mask()
    ensures Pow2(24) == MASK
  {
    assert Pow2(4) == 16;
    Pow2Split(4, 8);
    Pow2Split(8, 16);
    Pow2Split(8, 24);
  }

  /** Reduction modulo a multiple first makes no difference. */
  lemma {:induction false} ModMod(x: nat, n: nat, m: nat)
    requires n > 0 && m > 0
    ensures n * m > 0 && (x % (n * m)) % n == x % n
  {
    MulGe(n, m);
    var q, r := x / (n * m), x % (n * m);
    assert x == (n * m) * q + r;
    assert (n * m) * q == (m * q) * n;
    ModShift(r, m * q, n);
  }

  /** Some number of `n` consecutive ones has any given remainder. */
  lemma {:induction false} Residue(start: nat, n: nat, j: nat) returns (i: nat)
    requires j < n
    ensures i < n && (start + i) % n == j
  {
    var r := start % n;
    i := if j >= r then j - r else j + n - r;
    var q := start / n;
    assert start == n * q + r;
    if j >= r { ModUnique(start + i, n, q, j); }
    else {
      assert n * (q + 1) == n * q + n;
      ModUnique(start + i, n, q + 1, j);
    }
  }

  lemma {:induction false} ModEqual(x: nat, y: nat, n: nat)
    requires n > 0 && x < y && x % n == y % n
    ensures y - x >= n
  {
    var a, b, r := x / n, y / n, x % n;
    assert x == n * a + r && y == n * b + r;
    if b <= a {
      if a > b { MulGe(n, a - b); Distribute(n, a, b); }
    } else {
      MulGe(n, b - a);
      Distribute(n, b, a);
    }
  }

  // -------------------------------------------------------------------- slots

  type Ctx = nat

  /** A registered context and the handle it got. */
  datatype Slot = Free | Used(ctx: Ctx, handle: nat)

  ghost predicate HoldsIn(a: seq<Slot>, live: map<nat, Ctx>)
    requires |a| > 0
  {
    && (forall h :: h in live ==> a[h % |a|] == Used(live[h], h))
    && (forall i :: 0 <= i < |a| && a[i].Used? ==>
          a[i].handle % |a| == i && a[i].handle in live && live[a[i].handle] == a[i].ctx)
  }

  /** A handle in the free slot of its hash. */
  lemma {:induction false} TakeHolds(a: seq<Slot>, live: map<nat, Ctx>, hash: nat, ctx: Ctx, handle: nat)
    requires |a| > 0 && HoldsIn(a, live) && hash < |a| && a[hash].Free? && handle % |a| == hash
    ensures handle !in live && HoldsIn(a[hash := Used(ctx, handle)], live[handle := ctx])
  {
  }

  lemma {:induction false} FreeHolds(a: seq<Slot>, live: map<nat, Ctx>, hash: nat, handle: nat)
    requires |a| > 0 && HoldsIn(a, live) && hash < |a| && a[hash].Used? && a[hash].handle == handle
    ensures HoldsIn(a[hash := Free], live - {handle})
  {
  }

  /** Index `x` gives handle `h`. */
  ghost predicate Gives(x: nat, h: nat)
  {
    x % MASK == h % MASK
  }

  ghost predicate Stamped(last: map<nat, nat>, next: nat)
  {
    next >= 1 && forall h :: h in last ==> last[h] < next && Gives(last[h], h)
  }

  /** Issuing handle `h` at index `x`. */
  lemma {:induction false} StampNext(last: map<nat, nat>, next: nat, x: nat, h: nat)
    requires Stamped(last, next) && next <= x && Gives(x, h)
    ensures Stamped(last[h := x], x + 1)
    ensures (h in last ==> x - last[h] >= MASK) && (h % MASK == 0 ==> x >= MASK)
  {
    if h in last { ModEqual(last[h], x, MASK); }
    if h % MASK == 0 { ModEqual(0, x, MASK); }
  }

  class Handles {
    var slot: array<Slot>
    var handle_index: nat
    const harbor: nat
    ghost var k: nat                  // the size of the table is 2^k
    ghost var live: map<nat, Ctx>     // registered and not retired
    ghost var next: nat               // the index without wrap-around
    ghost var last: map<nat, nat>     // the index at which a handle was last issued

    ghost predicate Sized()
      reads this
    {
      k <= 24 && slot.Length == Pow2(k) && slot.Length > 0 && handle_index <= MASK && handle_index % MASK == next % MASK
    }

    /** The slots hold exactly the live handles, each at its hash. */
    ghost predicate Holds()
      requires slot.Length > 0
      reads this, slot
    {
      HoldsIn(slot[..], live)
    }

    ghost predicate Valid()
      reads this, slot
    {
      && Sized() && Holds()
      && (forall h :: h in live ==> h in last)
      && Stamped(last, next)
    }

    /** `skynet_handle_init` */
    constructor (harborId: nat)
      ensures Valid() && fresh(slot) && live == map[] && last == map[] && harbor == harborId % 256
      ensures next == 1 && handle_index == 1
    {
      slot := new Slot[4](_ => Free);
      handle_index := 1;
      harbor := harborId % 256;
      k, live, next, last := 2, map[], 1, map[];
      new;
      assert Pow2(2) == 4;
    }

    /** `skynet_handle_grab` finds exactly the live contexts. */
    method Grab(handle: nat) returns (result: Opt<Ctx>)
      requires Valid()
      ensures result == if handle in live then Some(live[handle]) else None
    {
      var hash := handle % slot.Length;
      var ctx := slot[hash];
      if ctx.Used? && ctx.handle == handle { result := Some(ctx.ctx); } else { result := None; }
    }

    /** `skynet_handle_retire`, without the names. */
    method Retire(handle: nat) returns (ret: bool)
      requires Valid()
      modifies this, slot
      ensures Valid() && slot == old(slot) && ret == (handle in old(live)) && live == old(live) - {handle}
      ensures next == old(next) && last == old(last) && handle_index == old(handle_index)
    {
      var hash := handle % slot.Length;
      var ctx := slot[hash];
      if ctx.Used? && ctx.handle == handle {
        FreeHolds(slot[..], live, hash, handle);
        ghost var b := slot[..];
        slot[hash] := Free;
        assert slot[..] == b[hash := Free];
        live := live - {handle};
        ret := true;
      } else {
        ret := false;
        assert live == live - {handle};
      }
    }

    /** The loop of `skynet_handle_register` over the slots. */
    method FindFree() returns (found: bool, i: nat)
      requires Sized()
      ensures found ==> i < slot.Length && slot[Probe(i, handle_index, slot.Length)].Free?
      ensures found ==> forall j :: 0 <= j < i ==> slot[Probe(j, handle_index, slot.Length)].Used?
      ensures !found ==> forall j :: 0 <= j < slot.Length ==> slot[j].Used?
    {
      i := 0;
      while i < slot.Length
        invariant i <= slot.Length && forall i' :: 0 <= i' < i ==> slot[Probe(i', handle_index, slot.Length)].Used?
      {
        var hash := (i + handle_index) % MASK % slot.Length;
        if slot[hash].Free? { return true, i; }
        i := i + 1;
      }
      found := false;
      forall j | 0 <= j < slot.Length ensures slot[j].Used? {
        var i' := Residue(handle_index, slot.Length, j);
        ProbeIs(i', handle_index, k);
      }
    }

    /** The free slot is taken. */
    method TakeSlot(ctx: Ctx, i: nat) returns (handle: nat)
      requires Valid() && slot[Probe(i, handle_index, slot.Length)].Free?
      modifies this, slot
      ensures Valid() && slot == old(slot) && Issued(old(live), old(next), old(last), ctx, handle)
      ensures handle == (i + old(handle_index)) % MASK + harbor * MASK &&
        handle_index == (i + old(handle_index)) % MASK + 1
    {
      var low := (i + handle_index) % MASK;
      var hash := low % slot.Length;
      handle := low + harbor * MASK;
      HandleHash(low, harbor, k);
      TakeHolds(slot[..], live, hash, ctx, handle);
      ghost var b := slot[..];
      NewHandle(handle_index, next, i, low, harbor, handle);
      StampNext(last, next, next + i, handle);
      slot[hash] := Used(ctx, handle);
      assert slot[..] == b[hash := Used(ctx, handle)];
      handle_index := low + 1;
      live := live[handle := ctx];
      last := last[handle := next + i];
      next := next + i + 1;
    }

    /** `skynet_handle_register`; its assertion is the limit on live handles.  The
        handle is that of the first index `x`, from `handle_index` on, whose slot
        is free, in a table of twice the size if this one is full; so its lower
        24 bits are zero exactly when that index is a multiple of 2^24. */
    method Register(ctx: Ctx) returns (handle: nat, ghost x: nat)
      requires Valid() && (k < 24 || exists j :: 0 <= j < slot.Length && slot[j].Free?)
      modifies this, slot
      ensures Valid() && (slot == old(slot) || fresh(slot)) && Issued(old(live), old(next), old(last), ctx, handle)
      ensures First(old(live), TableSize(old(live), old(slot.Length)), old(handle_index), x)
      ensures handle == x % MASK + harbor * MASK && handle_index == x % MASK + 1
      ensures handle % MASK == 0 <==> ZeroNext(old(live), TableSize(old(live), old(slot.Length)), old(handle_index))
    {
      var i := Room();
      x := handle_index + i;
      handle := TakeSlot(ctx, i);
      ZeroIff(old(live), TableSize(old(live), old(slot.Length)), old(handle_index), x);
      LowBits(x, harbor);
    }

    /** The search for a slot, which doubles a full table and starts again. */
    method Room() returns (i: nat)
      requires Valid() && (k < 24 || exists j :: 0 <= j < slot.Length && slot[j].Free?)
      modifies this
      ensures Valid() && (slot == old(slot) || fresh(slot)) && live == old(live) && next == old(next) &&
        last == old(last)
      ensures handle_index == old(handle_index) && slot[Probe(i, handle_index, slot.Length)].Free?
      ensures First(live, TableSize(live, old(slot.Length)), handle_index, handle_index + i)
    {
      UsedBusy(slot[..], live);
      var found;
      found, i := FindFree();
      if !found {
        Double();
        found, i := FindFree();
      }
      FirstProbe(slot[..], live, k, handle_index, i);
    }

    /** A handle that was not live has been issued, at a later index than ever;
        if it was issued before, or is the one of index zero, the index has gone
        round. */
    ghost predicate Issued(live0: map<nat, Ctx>, next0: nat, last0: map<nat, nat>, ctx: Ctx, handle: nat)
      reads this
    {
      && handle !in live0 && live == live0[handle := ctx]
      && handle in last && next0 <= last[handle] < next && last == last0[handle := last[handle]]
      && (handle in last0 ==> last[handle] - last0[handle] >= MASK)
      && handle / MASK == harbor
      && (handle % MASK == 0 ==> last[handle] >= MASK)
    }

    /** The doubling of a full table: no two contexts collide. */
    method Double()
      requires Valid() && k < 24 && forall j :: 0 <= j < slot.Length ==> slot[j].Used?
      modifies this
      ensures Valid() && fresh(slot) && live == old(live) && next == old(next) && last == old(last)
      ensures handle_index == old(handle_index)
      ensures slot.Length == 2 * old(slot.Length) && exists j :: 0 <= j < slot.Length && slot[j].Free?
    {
      var new_slot := Rehash();
      RehashDone(slot[..], new_slot[..]);
      DoubleHolds(slot[..], new_slot[..], live);
      slot := new_slot;
      k := k + 1;
    }

    /** The loop that copies the contexts. */
    method Rehash() returns (new_slot: array<Slot>)
      requires slot.Length > 0 && Holds() && forall j :: 0 <= j < slot.Length ==> slot[j].Used?
      ensures fresh(new_slot) && Rehashed(slot[..], new_slot[..], slot.Length)
    {
      var n := slot.Length;
      new_slot := new Slot[n * 2](_ => Free);
      for i := 0 to n
        invariant Rehashed(slot[..], new_slot[..], i)
      {
        var hash := slot[i].handle % (n * 2);
        RehashStep(slot[..], new_slot[..], i);
        assert new_slot[..][hash].Free?;
        ghost var b := new_slot[..];
        new_slot[hash] := slot[i];
        assert new_slot[..] == b[hash := slot[i]];
      }
    }
  }

  // --------------------------------------------------- which handle comes next

  /** A live handle has the slot of index `x` in a table of `size` slots. */
  ghost predicate Busy(live: map<nat, Ctx>, size: nat, x: nat)
    requires size > 0
  {
    exists h :: h in live && h % size == x % size
  }

  ghost predicate AllBusy(live: map<nat, Ctx>, size: nat)
    requires size > 0
  {
    forall r :: 0 <= r < size ==> Busy(live, size, r)
  }

  /** The size of the table in which the next context goes. */
  ghost function TableSize(live: map<nat, Ctx>, size: nat): (n: nat)
    requires size > 0
    ensures n > 0
  {
    if AllBusy(live, size) then 2 * size else size
  }

  /** The first index from `start` on whose slot is free. */
  ghost predicate First(live: map<nat, Ctx>, size: nat, start: nat, x: nat)
    requires size > 0
  {
    start <= x && !Busy(live, size, x) && forall y :: start <= y < x ==> Busy(live, size, y)
  }

  /** That index is a multiple of 2^24. */
  ghost predicate ZeroNext(live: map<nat, Ctx>, size: nat, start: nat)
    requires size > 0
  {
    exists x: nat :: First(live, size, start, x) && x % MASK == 0
  }

  lemma {:induction false} ZeroIff(live: map<nat, Ctx>, size: nat, start: nat, x: nat)
    requires size > 0 && First(live, size, start, x)
    ensures ZeroNext(live, size, start) <==> x % MASK == 0
  {
    forall y: nat | First(live, size, start, y) ensures y == x { }
  }

  lemma {:induction false} LowBits(x: nat, harbor: nat)
    ensures (x % MASK + harbor * MASK) % MASK == x % MASK
  {
    ModShift(x % MASK, harbor, MASK);
  }

  lemma {:induction false} SlotBusy(a: seq<Slot>, live: map<nat, Ctx>, x: nat)
    requires |a| > 0 && HoldsIn(a, live)
    ensures a[x % |a|].Used? <==> Busy(live, |a|, x)
  {
    var p := x % |a|;
    if a[p].Used? { assert a[p].handle in live && a[p].handle % |a| == p; }
  }

  /** All slots are in use exactly when all are busy. */
  lemma {:induction false} UsedBusy(a: seq<Slot>, live: map<nat, Ctx>)
    requires |a| > 0 && HoldsIn(a, live)
    ensures (forall j :: 0 <= j < |a| ==> a[j].Used?) <==> AllBusy(live, |a|)
  {
    forall j | 0 <= j < |a| ensures a[j].Used? <==> Busy(live, |a|, j) {
      SlotBusy(a, live, j);
      ModUnique(j, |a|, 0, j);
    }
  }

  /** What the search has found is the first free index. */
  lemma {:induction false} FirstProbe(a: seq<Slot>, live: map<nat, Ctx>, k: nat, index: nat, i: nat)
    requires k <= 24 && |a| == Pow2(k) > 0 && HoldsIn(a, live)
    requires Probe(i, index, |a|) < |a| && a[Probe(i, index, |a|)].Free?
    requires forall j :: 0 <= j < i ==> Probe(j, index, |a|) < |a| && a[Probe(j, index, |a|)].Used?
    ensures First(live, |a|, index, index + i)
  {
    ProbeIs(i, index, k);
    SlotBusy(a, live, index + i);
    forall y | index <= y < index + i ensures Busy(live, |a|, y) {
      var j := y - index;
      assert a[Probe(j, index, |a|)].Used?;
      ProbeIs(j, index, k);
      SlotBusy(a, live, y);
    }
  }

  /** A registry in which one context at a time is registered and retired: when
      the index has gone round, the next context gets handle zero. */
  method HandleZero(ctx: Ctx) returns (handle: nat)
    ensures handle == 0
  {
    var r := new Handles(0);
    var j := 1;
    while j < MASK
      invariant 1 <= j <= MASK && r.handle_index == j && r.harbor == 0
      invariant fresh(r) && fresh(r.slot) && r.Valid() && r.live == map[]
    {
      ModUnique(j, MASK, 0, j);
      handle := OneRound(r, ctx);
      j := j + 1;
    }
    handle := OneRound(r, ctx);
  }

  /** A context comes and goes in an empty registry. */
  method OneRound(r: Handles, ctx: Ctx) returns (handle: nat)
    requires r.Valid() && r.live == map[]
    modifies r, r.slot
    ensures r.Valid() && r.live == map[] && (r.slot == old(r.slot) || fresh(r.slot))
    ensures handle == old(r.handle_index) % MASK + r.harbor * MASK && r.handle_index == old(r.handle_index) % MASK + 1
  {
    NoneUsed(r.slot[..], TableSize(r.live, r.slot.Length), r.handle_index);
    ghost var x;
    handle, x := r.Register(ctx);
    var ok := r.Retire(handle);
    assert r.live == map[];
  }

  /** Without live handles every slot is free, and the first index will do. */
  lemma {:induction false} NoneUsed(a: seq<Slot>, size: nat, start: nat)
    requires |a| > 0 && HoldsIn(a, map[]) && size > 0
    ensures a[0].Free? && forall x: nat :: First(map[], size, start, x) ==> x == start
  {
    assert !Busy(map[], size, start);
  }

  // ----------------------------------------------------------------- doubling

  /** The first `i` contexts of a full table, in a table of twice the size. */
  ghost predicate Rehashed(a: seq<Slot>, b: seq<Slot>, i: nat)
  {
    && |a| > 0 && |b| == 2 * |a| && i <= |a|
    && (forall p :: 0 <= p < |a| ==> a[p].Used? && a[p].handle % |a| == p)
    && (forall p :: 0 <= p < |b| && b[p].Used? ==> Came(a, b, i, p))
    && (forall j :: 0 <= j < i ==> b[a[j].handle % |b|] == a[j])
  }

  ghost predicate Came(a: seq<Slot>, b: seq<Slot>, i: nat, p: int)
    requires |a| > 0 && 0 <= p < |b|
  {
    p % |a| < i && b[p] == a[p % |a|] && b[p].Used? && b[p].handle % |b| == p
  }

  lemma {:induction false} RehashStep(a: seq<Slot>, b: seq<Slot>, i: nat)
    requires Rehashed(a, b, i) && i < |a|
    ensures var hash := a[i].handle % |b|; b[hash].Free? && Rehashed(a, b[hash := a[i]], i + 1)
  {
    var n := |a|;
    var hash := a[i].handle % |b|;
    ModMod(a[i].handle, n, 2);
    assert hash % n == i;
    assert b[hash].Used? ==> Came(a, b, i, hash);
    var b' := b[hash := a[i]];
    forall p | 0 <= p < |b'| && b'[p].Used? ensures Came(a, b', i + 1, p) { if p != hash { assert Came(a, b, i, p); } }
    forall j | 0 <= j < i + 1 ensures b'[a[j].handle % |b'|] == a[j] {
      if j < i { ModMod(a[j].handle, n, 2); }
    }
  }

  /** Half of the slots are free: of two with the same old hash, one. */
  lemma {:induction false} RehashDone(a: seq<Slot>, b: seq<Slot>)
    requires Rehashed(a, b, |a|)
    ensures exists j :: 0 <= j < |b| && b[j].Free?
  {
    var n := |a|;
    ModUnique(n, n, 1, 0);
    ModUnique(0, n, 0, 0);
    if b[0].Used? {
      assert Came(a, b, n, 0);
      assert b[n].Used? ==> Came(a, b, n, n);
      assert b[n].Free?;
    } else {
      assert b[0].Free?;
    }
  }

  lemma {:induction false} DoubleHolds(a: seq<Slot>, b: seq<Slot>, live: map<nat, Ctx>)
    requires Rehashed(a, b, |a|) && (forall h :: h in live ==> a[h % |a|] == Used(live[h], h))
    requires forall i :: 0 <= i < |a| && a[i].Used? ==> a[i].handle in live && live[a[i].handle] == a[i].ctx
    ensures forall h :: h in live ==> b[h % |b|] == Used(live[h], h)
    ensures forall p :: 0 <= p < |b| && b[p].Used? ==>
      b[p].handle % |b| == p && b[p].handle in live && live[b[p].handle] == b[p].ctx
  {
    forall h | h in live ensures b[h % |b|] == Used(live[h], h) { assert a[h % |a|].handle == h; }
    forall p | 0 <= p < |b| && b[p].Used?
      ensures b[p].handle % |b| == p && b[p].handle in live && live[b[p].handle] == b[p].ctx {
      assert Came(a, b, |a|, p);
    }
  }

  /** Where the search looks. */
  function Probe(i: nat, index: nat, n: nat): nat
    requires n > 0
  {
    (i + index) % MASK % n
  }

  lemma {:induction false} SizeDivides(k: nat)
    requires k <= 24
    ensures Pow2(k) > 0 && MASK == Pow2(k) * Pow2(24 - k)
  {
    Pow2Positive(k);
    Pow2Mask();
    Pow2Split(k, 24);
  }

  lemma {:induction false} ProbeIs(i: nat, index: nat, k: nat)
    requires k <= 24
    ensures Pow2(k) > 0 && Probe(i, index, Pow2(k)) == (index + i) % Pow2(k)
  {
    SizeDivides(k);
    Pow2Positive(24 - k);
    ModMod(i + index, Pow2(k), Pow2(24 - k));
  }

  lemma {:induction false} HandleHash(low: nat, harbor: nat, k: nat)
    requires k <= 24
    ensures Pow2(k) > 0 && (low + harbor * MASK) % Pow2(k) == low % Pow2(k)
  {
    SizeDivides(k);
    assert harbor * (Pow2(k) * Pow2(24 - k)) == (harbor * Pow2(24 - k)) * Pow2(k);
    ModShift(low, harbor * Pow2(24 - k), Pow2(k));
  }

  lemma IndexKept(index: nat, next: nat, i: nat)
    requires index % MASK == next % MASK
    ensures (i + index) % MASK == (next + i) % MASK && ((i + index) % MASK + 1) % MASK == (next + i + 1) % MASK
  {
  }

  /** The handle for index `next + i`, and the index after it. */
  lemma {:induction false} NewHandle(index: nat, next: nat, i: nat, low: nat, harbor: nat, handle: nat)
    requires index % MASK == next % MASK && low == (i + index) % MASK && handle == low + harbor * MASK
    ensures handle % MASK == low && handle / MASK == harbor && (next + i) % MASK == low &&
      (low + 1) % MASK == (next + i + 1) % MASK
  {
    IndexKept(index, next, i);
    HandleParts(low, harbor);
  }

  lemma {:induction false} HandleParts(low: nat, harbor: nat)
    requires low < MASK
    ensures (low + harbor * MASK) % MASK == low && (low + harbor * MASK) / MASK == harbor
  {
    ModShift(low, harbor, MASK);
  }
}
