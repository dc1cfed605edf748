/** Shared tables (lua-sharedata.c): an array part, and a hash part with as many
    slots as the source table has other keys, keys that collide being chained
    through slots nobody else needs.  Integer keys are 64 bits wide in the source
    table and 32 bits wide here, so the table serves its source exactly only if
    no two keys become one. */
module SharedTable {
  import opened Common

  const P31: int := 0x8000_0000
  const P32: int := 0x1_0000_0000

  type Int32 = i: int | -P31 <= i < P31
  type Int64 = i: int | -P31 * P32 <= i < P31 * P32

  /** The key of a source table; `LOther` stands for all other types. */
  datatype LuaKey = LInt(i: Int64) | LStr(s: seq<nat>) | LTable(id: nat) | LOther(id: nat)

  datatype Key = IntKey(i: Int32) | StrKey(s: seq<nat>)

  type Hash = Key -> nat

  /** A slot; `Empty` is one whose value type is still nil. */
  datatype Node =
    | Empty
    | Node(key: Key, value: int, keyhash: nat, next: int, nocolliding: bool)

  datatype Pair = Pair(key: Key, value: int)

  function Main(h: Hash, k: Key, n: nat): nat
    requires n > 0
  {
    h(k) % n
  }

  ghost predicate NoDup(c: seq<nat>)
  {
    forall i, j :: 0 <= i < j < |c| ==> c[i] != c[j]
  }

  /** `c` is the chain of main position `p`. */
  ghost predicate ChainOk(h: Hash, a: seq<Node>, c: seq<nat>, p: nat)
    requires |a| > 0
  {
    && NoDup(c) && (c != [] ==> c[0] == p)
    && (forall i :: 0 <= i < |c| ==> LinkOk(h, a, c, p, i))
  }

  ghost predicate LinkOk(h: Hash, a: seq<Node>, c: seq<nat>, p: nat, i: int)
    requires |a| > 0 && 0 <= i < |c|
  {
    && c[i] < |a| && a[c[i]].Node? && Main(h, a[c[i]].key, |a|) == p
    && a[c[i]].next == (if i + 1 < |c| then c[i + 1] else -1)
    && (a[c[i]].nocolliding ==> |c| == 1)
  }

  /** Every used slot is in the chain of its key, and no key is there twice. */
  ghost predicate Ok(h: Hash, a: seq<Node>, cs: seq<seq<nat>>)
  {
    && |a| > 0 && |cs| == |a|
    && (forall p :: 0 <= p < |a| ==> ChainOk(h, a, cs[p], p))
    && (forall s :: 0 <= s < |a| && a[s].Node? ==> a[s].keyhash == h(a[s].key) && s in cs[Main(h, a[s].key, |a|)])
    && (forall s, t :: 0 <= s < t < |a| && a[s].Node? && a[t].Node? ==> a[s].key != a[t].key)
  }

  ghost predicate Has(a: seq<Node>, k: Key)
  {
    exists s :: 0 <= s < |a| && a[s].Node? && a[s].key == k
  }

  // ------------------------------------------------------------------- lookup

  /** The walk of `lookup_key` along a chain, for at most `f` slots. */
  function Walk(a: seq<Node>, k: Key, keyhash: nat, s: int, f: nat): int
    decreases f
  {
    if f == 0 || !(0 <= s < |a|) || a[s].Empty? then -1
    else if keyhash == a[s].keyhash && a[s].key == k then s
    else if a[s].next < 0 then -1
    else Walk(a, k, keyhash, a[s].next, f - 1)
  }

  /** `lookup_key`: the slot of a key, negative when there is none. */
  function Lookup(h: Hash, a: seq<Node>, k: Key): int
  {
    if |a| == 0 then -1 else
    var n := Main(h, k, |a|);
    if a[n].Node? && h(k) != a[n].keyhash && a[n].nocolliding then -1 else Walk(a, k, h(k), n, |a|)
  }

  ghost predicate Full(a: seq<Node>)
  {
    forall s :: 0 <= s < |a| ==> a[s].Node?
  }

  lemma {:induction false} ChainFits(c: seq<nat>, n: nat)
    requires NoDup(c) && forall i :: 0 <= i < |c| ==> c[i] < n
    ensures |c| <= n
  {
    var used := set i | 0 <= i < |c| :: c[i];
    ChainCount(c);
    SubsetSize(used, Below(n));
  }

  lemma {:induction false} ChainCount(c: seq<nat>)
    requires NoDup(c)
    ensures |set i | 0 <= i < |c| :: c[i]| == |c|
    decreases |c|
  {
    if c != [] {
      var front, last := c[..|c| - 1], c[|c| - 1];
      ChainCount(front);
      assert (set i | 0 <= i < |c| :: c[i]) == (set i | 0 <= i < |front| :: front[i]) + {last};
    }
  }

  /** The walk from place `i` of a chain finds what is in the rest of it. */
  lemma {:induction false} WalkChain(h: Hash, a: seq<Node>, c: seq<nat>, q: nat, k: Key, i: nat, f: nat)
    requires |a| > 0 && ChainOk(h, a, c, q) && i < |c| && |c| - i <= f
    requires forall s :: 0 <= s < |a| && a[s].Node? ==> a[s].keyhash == h(a[s].key)
    ensures var r := Walk(a, k, h(k), c[i], f);
      if r >= 0 then r < |a| && a[r].Node? && a[r].key == k
      else forall j :: i <= j < |c| && c[j] < |a| && a[c[j]].Node? ==> a[c[j]].key != k
    decreases f
  {
    assert LinkOk(h, a, c, q, i);
    if !(h(k) == a[c[i]].keyhash && a[c[i]].key == k) && a[c[i]].next >= 0 { WalkChain(h, a, c, q, k, i + 1, f - 1); }
  }

  /** The chain that goes through the main position of `k`. */
  lemma {:induction false} ChainThrough(h: Hash, a: seq<Node>, cs: seq<seq<nat>>, p: nat) returns (q: nat, i: nat)
    requires Ok(h, a, cs) && p < |a| && a[p].Node?
    ensures q == Main(h, a[p].key, |a|) && i < |cs[q]| && cs[q][i] == p
    ensures ChainOk(h, a, cs[q], q) && LinkOk(h, a, cs[q], q, i) && |cs[q]| <= |a| && (q == p ==> i == 0)
  {
    q := Main(h, a[p].key, |a|);
    i := PlaceIn(cs[q], p);
    assert ChainOk(h, a, cs[q], q);
    forall j | 0 <= j < |cs[q]| ensures cs[q][j] < |a| { assert LinkOk(h, a, cs[q], q, j); }
    ChainFits(cs[q], |a|);
  }

  /** Lookup finds exactly the keys in the table. */
  lemma {:induction false} LookupExact(h: Hash, a: seq<Node>, cs: seq<seq<nat>>, k: Key)
    requires |a| > 0 ==> Ok(h, a, cs) && Full(a)
    ensures var r := Lookup(h, a, k);
      if r >= 0 then r < |a| && a[r].Node? && a[r].key == k else !Has(a, k)
  {
    if |a| > 0 {
      var p := Main(h, k, |a|);
      var q, i := ChainThrough(h, a, cs, p);
      WalkChain(h, a, cs[q], q, k, i, |a|);
      if Lookup(h, a, k) < 0 { NotFound(h, a, cs, k, p, |cs[p]|); }
    }
  }

  /** `lookup_key`, the loop. */
  method LookupKey(h: Hash, a: array<Node>, k: Key, ghost cs: seq<seq<nat>>) returns (r: int)
    requires a.Length > 0 ==> Ok(h, a[..], cs) && Full(a[..])
    ensures r == Lookup(h, a[..], k)
    ensures if r >= 0 then r < a.Length && a[r].Node? && a[r].key == k else !Has(a[..], k)
  {
    LookupExact(h, a[..], cs, k);
    if a.Length == 0 { return -1; }
    var keyhash := h(k);
    var n := keyhash % a.Length;
    ghost var t, f := a[..], a.Length;
    ghost var q, i := ChainThrough(h, t, cs, n);
    if keyhash != a[n].keyhash && a[n].nocolliding { return -1; }
    while true
      invariant 0 <= i < |cs[q]| && n == cs[q][i] && LinkOk(h, t, cs[q], q, i) && |cs[q]| - i <= f
      invariant Walk(t, k, keyhash, n, f) == Lookup(h, t, k)
      decreases f
    {
      if keyhash == a[n].keyhash && a[n].key == k { return n; }
      if a[n].next < 0 { return -1; }
      n := a[n].next;
      f := f - 1;
      i := i + 1;
      assert LinkOk(h, t, cs[q], q, i);
    }
  }

  ghost function PlaceIn(c: seq<nat>, s: nat): (i: nat)
    requires s in c
    ensures i < |c| && c[i] == s
  {
    var i :| 0 <= i < |c| && c[i] == s;
    i
  }

  /** The first `i` keys of a chain are not `k`. */
  ghost predicate Unequal(a: seq<Node>, c: seq<nat>, i: int, k: Key)
  {
    forall j :: 0 <= j < i && j < |c| && c[j] < |a| && a[c[j]].Node? ==> a[c[j]].key != k
  }

  /** The key is not there if its whole chain has been seen, or if the slot in
      its main position belongs to another chain. */
  lemma {:induction false} NotFound(h: Hash, a: seq<Node>, cs: seq<seq<nat>>, k: Key, p: nat, n: nat)
    requires Ok(h, a, cs) && p < |a| && a[p].Node? && p == Main(h, k, |a|)
    requires Main(h, a[p].key, |a|) == p ==> n == |cs[p]| && Unequal(a, cs[p], n, k)
    ensures !Has(a, k)
  {
    HeadOwn(h, a, cs, p);
    forall s | 0 <= s < |a| && a[s].Node? ensures a[s].key != k {
      assert s in cs[Main(h, a[s].key, |a|)];
    }
  }

  /** The head of a chain sits in its main position. */
  lemma {:induction false} HeadOwn(h: Hash, a: seq<Node>, cs: seq<seq<nat>>, p: nat)
    requires Ok(h, a, cs) && p < |a|
    ensures cs[p] != [] ==> a[p].Node? && Main(h, a[p].key, |a|) == p
  {
    assert ChainOk(h, a, cs[p], p);
    if cs[p] != [] { assert LinkOk(h, a, cs[p], p, 0); }
  }

  // --------------------------------------------------------------------- fill

  /** The hash keys of a source table, each once, in the order of traversal. */
  ghost predicate Distinct(es: seq<Pair>)
  {
    forall i, j :: 0 <= i < j < |es| ==> es[i].key != es[j].key
  }

  /** The table holds entries of the source only. */
  ghost predicate From(a: seq<Node>, es: seq<Pair>)
  {
    forall s :: 0 <= s < |a| && a[s].Node? ==> Pair(a[s].key, a[s].value) in es
  }

  /** Main positions are taken by keys that belong there. */
  ghost predicate MainTaken(h: Hash, a: seq<Node>, k: Key)
    requires |a| > 0
  {
    var p := Main(h, k, |a|);
    a[p].Node? && Main(h, a[p].key, |a|) == p
  }

  /** A key goes to its free main position. */
  lemma {:induction false} PlaceMain(h: Hash, a: seq<Node>, cs: seq<seq<nat>>, e: Pair)
    requires Ok(h, a, cs) && !Has(a, e.key) && a[Main(h, e.key, |a|)].Empty?
    ensures var p := Main(h, e.key, |a|);
      Ok(h, a[p := Node(e.key, e.value, h(e.key), -1, true)], cs[p := [p]])
  {
    var n, p := |a|, Main(h, e.key, |a|);
    var a', cs' := a[p := Node(e.key, e.value, h(e.key), -1, true)], cs[p := [p]];
    HeadOwn(h, a, cs, p);
    forall q | 0 <= q < n ensures ChainOk(h, a', cs'[q], q) {
      assert ChainOk(h, a, cs[q], q);
      if q != p {
        forall i | 0 <= i < |cs[q]| ensures LinkOk(h, a', cs[q], q, i) { assert LinkOk(h, a, cs[q], q, i); }
      }
    }
  }

  /** A key that collides goes to a free slot, second in its chain. */
  function Linked(h: Hash, a: seq<Node>, e: Pair, p: nat, s: nat): (a': seq<Node>)
    requires p < |a| && s < |a| && a[p].Node?
    ensures |a'| == |a|
  {
    a[s := Node(e.key, e.value, h(e.key), a[p].next, false)][p := a[p].(next := s, nocolliding := false)]
  }

  lemma {:induction false} LinkChain(h: Hash, a: seq<Node>, cs: seq<seq<nat>>, e: Pair, s: nat)
    requires Ok(h, a, cs) && MainTaken(h, a, e.key) && s < |a| && a[s].Empty?
    ensures var p := Main(h, e.key, |a|);
      cs[p] != [] && ChainOk(h, Linked(h, a, e, p, s), [p, s] + cs[p][1..], p)
  {
    var p := Main(h, e.key, |a|);
    var c, a' := cs[p], Linked(h, a, e, p, s);
    assert p in c && ChainOk(h, a, c, p);
    var c' := [p, s] + c[1..];
    forall i | 0 <= i < |c| ensures c[i] != s { assert LinkOk(h, a, c, p, i); }
    forall i | 0 <= i < |c'| ensures LinkOk(h, a', c', p, i) {
      if i >= 2 { assert LinkOk(h, a, c, p, i - 1) && c'[i] == c[i - 1]; }
      assert LinkOk(h, a, c, p, 0);
    }
  }

  lemma {:induction false} LinkFree(h: Hash, a: seq<Node>, cs: seq<seq<nat>>, e: Pair, s: nat)
    requires Ok(h, a, cs) && !Has(a, e.key) && MainTaken(h, a, e.key) && s < |a| && a[s].Empty?
    ensures var p := Main(h, e.key, |a|);
      cs[p] != [] && Ok(h, Linked(h, a, e, p, s), cs[p := [p, s] + cs[p][1..]])
  {
    var n, p := |a|, Main(h, e.key, |a|);
    LinkChain(h, a, cs, e, s);
    var a', cs' := Linked(h, a, e, p, s), cs[p := [p, s] + cs[p][1..]];
    forall q | 0 <= q < n ensures ChainOk(h, a', cs'[q], q) {
      if q != p { OtherChain(h, a, cs, e, s, q); }
    }
    forall t | 0 <= t < n && a'[t].Node? ensures a'[t].keyhash == h(a'[t].key) && t in cs'[Main(h, a'[t].key, n)] {
      if t == s { assert cs'[p][1] == s; }
      else {
        assert t in cs[Main(h, a[t].key, n)];
        if Main(h, a[t].key, n) == p { StillIn(cs[p], p, s, t); }
      }
    }
  }

  lemma StillIn(c: seq<nat>, p: nat, s: nat, t: nat)
    requires c != [] && c[0] == p && t in c
    ensures t in [p, s] + c[1..]
  {
    assert c == [c[0]] + c[1..];
  }

  lemma {:induction false} OtherChain(h: Hash, a: seq<Node>, cs: seq<seq<nat>>, e: Pair, s: nat, q: nat)
    requires Ok(h, a, cs) && MainTaken(h, a, e.key) && s < |a| && a[s].Empty? && q < |a| && q != Main(h, e.key, |a|)
    ensures ChainOk(h, Linked(h, a, e, Main(h, e.key, |a|), s), cs[q], q)
  {
    var p := Main(h, e.key, |a|);
    assert ChainOk(h, a, cs[q], q);
    forall i | 0 <= i < |cs[q]|
      ensures LinkOk(h, Linked(h, a, e, p, s), cs[q], q, i) { assert LinkOk(h, a, cs[q], q, i); }
  }

  // ------------------------------------------------------------- enough slots

  function KeysOf(es: seq<Pair>): set<Key> { set i | 0 <= i < |es| :: es[i].key }

  lemma {:induction false} KeyCount(es: seq<Pair>)
    requires Distinct(es)
    ensures |KeysOf(es)| == |es|
    decreases |es|
  {
    if es != [] {
      var front, last := es[..|es| - 1], es[|es| - 1];
      KeyCount(front);
      assert KeysOf(es) == KeysOf(front) + {last.key};
    }
  }

  function UsedKeys(a: seq<Node>): set<Key> { set s | 0 <= s < |a| && a[s].Node? :: a[s].key }

  /** When every key is there no slot is left. */
  lemma {:induction false} AllUsed(a: seq<Node>, es: seq<Pair>)
    requires From(a, es) && Distinct(es) && |a| == |es| && forall i :: 0 <= i < |es| ==> Has(a, es[i].key)
    ensures forall s :: 0 <= s < |a| ==> a[s].Node?
  {
    KeyCount(es);
    UsedCount(a);
    forall k | k in KeysOf(es) ensures k in UsedKeys(a) {
      var i :| 0 <= i < |es| && es[i].key == k;
      assert Has(a, es[i].key);
    }
    SubsetSize(KeysOf(es), UsedKeys(a));
  }

  /** No more keys than slots; as many only if all are in use. */
  lemma {:induction false} UsedCount(a: seq<Node>)
    ensures |UsedKeys(a)| <= |a| && (|UsedKeys(a)| == |a| ==> forall s :: 0 <= s < |a| ==> a[s].Node?)
    decreases |a|
  {
    if a != [] {
      var front, last := a[..|a| - 1], a[|a| - 1];
      UsedCount(front);
      assert UsedKeys(a) == UsedKeys(front) + if last.Node? then {last.key} else {};
    }
  }

  lemma {:induction false} HasAt(h: Hash, a: seq<Node>, cs: seq<seq<nat>>, k: Key)
    requires Ok(h, a, cs) && a[Main(h, k, |a|)].Empty?
    ensures !Has(a, k)
  {
    var p := Main(h, k, |a|);
    HeadOwn(h, a, cs, p);
    forall s | 0 <= s < |a| && a[s].Node? ensures a[s].key != k { assert s in cs[Main(h, a[s].key, |a|)]; }
  }

  /** Every key so far is in its main position. */
  ghost predicate OnlyMain(h: Hash, a: seq<Node>)
  {
    |a| > 0 && forall s :: 0 <= s < |a| && a[s].Node? ==> Main(h, a[s].key, |a|) == s
  }

  lemma {:induction false} MoreSources(a: seq<Node>, es: seq<Pair>, e: Pair)
    requires From(a, es)
    ensures From(a, es + [e])
  {
    forall s | 0 <= s < |a| && a[s].Node? ensures Pair(a[s].key, a[s].value) in es + [e] {
      assert Pair(a[s].key, a[s].value) in es;
    }
  }

  lemma {:induction false} PlacedMain(h: Hash, a: seq<Node>, a': seq<Node>, es: seq<Pair>, e: Pair)
    requires From(a, es) && OnlyMain(h, a)
    requires a' == a[Main(h, e.key, |a|) := Node(e.key, e.value, h(e.key), -1, true)]
    ensures From(a', es + [e]) && OnlyMain(h, a') && MainTaken(h, a', e.key)
    ensures forall k :: MainTaken(h, a, k) ==> MainTaken(h, a', k)
  {
    forall s | 0 <= s < |a'| && a'[s].Node? ensures Pair(a'[s].key, a'[s].value) in es + [e] {
      if s != Main(h, e.key, |a|) { assert Pair(a[s].key, a[s].value) in es; }
    }
  }

  // ------------------------------------------------------------- the two passes

  /** One key in `fillnocolliding`: it takes its main position if that is free. */
  function Step1(h: Hash, a: seq<Node>, e: Pair): (a': seq<Node>)
    requires |a| > 0
    ensures |a'| == |a|
  {
    var p := Main(h, e.key, |a|);
    if a[p].Empty? then a[p := Node(e.key, e.value, h(e.key), -1, true)] else a
  }

  /** `fillnocolliding` on `n` slots. */
  function Pass1(h: Hash, es: seq<Pair>, n: nat): (a: seq<Node>)
    requires n > 0
    ensures |a| == n
    decreases |es|
  {
    if es == [] then seq(n, _ => Empty) else Step1(h, Pass1(h, es[..|es| - 1], n), es[|es| - 1])
  }

  function FirstFree(a: seq<Node>, i: nat): (s: nat)
    requires i <= |a|
    ensures i <= s <= |a| && (s < |a| ==> a[s].Empty?) && forall j :: i <= j < s ==> a[j].Node?
    decreases |a| - i
  {
    if i == |a| || a[i].Empty? then i else FirstFree(a, i + 1)
  }

  predicate AtMain(h: Hash, a: seq<Node>, k: Key)
    requires |a| > 0
  {
    var p := Main(h, k, |a|);
    a[p].Node? && a[p].key == k
  }

  /** One key in `fillcolliding`: unless it is in its main position it takes the
      first free slot. */
  function Step2(h: Hash, a: seq<Node>, e: Pair): (a': seq<Node>)
    requires |a| > 0
    ensures |a'| == |a|
  {
    var p, s := Main(h, e.key, |a|), FirstFree(a, 0);
    if AtMain(h, a, e.key) || s == |a| || a[p].Empty? then a else Linked(h, a, e, p, s)
  }

  function Pass2(h: Hash, es: seq<Pair>, a: seq<Node>): (a': seq<Node>)
    requires |a| > 0
    ensures |a'| == |a|
    decreases |es|
  {
    if es == [] then a else Step2(h, Pass2(h, es[..|es| - 1], a), es[|es| - 1])
  }

  /** The hash part made of the pairs `es` in `n` slots. */
  function HashPart(h: Hash, es: seq<Pair>, n: nat): (a: seq<Node>)
    ensures |a| == n
  {
    if n == 0 then [] else Pass2(h, es, Pass1(h, es, n))
  }

  function UsedSlots(a: seq<Node>): set<nat> { set s: nat | s < |a| && a[s].Node? }

  /** As many entries, `own`, have taken a slot as slots are in use; from entry `m`
      on only those in their main position have. */
  ghost predicate Owned(h: Hash, a: seq<Node>, es: seq<Pair>, own: set<nat>, m: nat)
  {
    && |a| > 0 && |UsedSlots(a)| == |own|
    && forall i :: i in own ==> i < |es| && (i < m || AtMain(h, a, es[i].key))
  }

  lemma {:induction false} OwnedMore(h: Hash, a: seq<Node>, a': seq<Node>, es: seq<Pair>, own: set<nat>, m: nat,
      m': nat, s: nat, i: nat)
    requires Owned(h, a, es, own, m) && |a'| == |a| && s < |a| && a[s].Empty? && a'[s].Node? && i < |es| && i !in own &&
      m <= m'
    requires i < m' || AtMain(h, a', es[i].key)
    requires forall t :: 0 <= t < |a| && t != s ==>
      (a'[t].Node? <==> a[t].Node?) && (a[t].Node? ==> a'[t].key == a[t].key)
    ensures Owned(h, a', es, own + {i}, m')
  {
    assert UsedSlots(a') == UsedSlots(a) + {s};
  }

  /** What the first pass has done. */
  ghost predicate Passed1(h: Hash, a: seq<Node>, es: seq<Pair>)
  {
    From(a, es) && OnlyMain(h, a) && forall i :: 0 <= i < |es| ==> MainTaken(h, a, es[i].key)
  }

  lemma {:induction false} Step1Facts(h: Hash, a: seq<Node>, es: seq<Pair>, own: set<nat>, cs: seq<seq<nat>>, e: Pair)
    returns (own': set<nat>, cs': seq<seq<nat>>)
    requires Passed1(h, a, es) && Owned(h, a, es, own, 0) && (Distinct(es + [e]) ==> Ok(h, a, cs))
    ensures var a' := Step1(h, a, e);
      Passed1(h, a', es + [e]) && Owned(h, a', es + [e], own', 0) && (Distinct(es + [e]) ==> Ok(h, a', cs'))
  {
    var p, a', all := Main(h, e.key, |a|), Step1(h, a, e), es + [e];
    assert Owned(h, a, all, own, 0);
    if a[p].Empty? {
      PlacedMain(h, a, a', es, e);
      own' := own + {|es|};
      OwnedMore(h, a, a', all, own, 0, 0, p, |es|);
      cs' := if p < |cs| then cs[p := [p]] else cs;
      if Distinct(all) {
        HasAt(h, a, cs, e.key);
        PlaceMain(h, a, cs, e);
      }
    } else {
      MoreSources(a, es, e);
      own', cs' := own, cs;
    }
    forall i | 0 <= i < |all|
      ensures MainTaken(h, a', all[i].key) { if i < |es| { assert MainTaken(h, a, es[i].key); } }
  }

  lemma {:induction false} Pass1Facts(h: Hash, es: seq<Pair>, n: nat) returns (own: set<nat>, cs: seq<seq<nat>>)
    requires n > 0
    ensures var a := Pass1(h, es, n);
      Passed1(h, a, es) && Owned(h, a, es, own, 0) && (Distinct(es) ==> Ok(h, a, cs))
    decreases |es|
  {
    if es == [] {
      own, cs := {}, seq(n, _ => []);
      assert UsedSlots(Pass1(h, es, n)) == {};
    } else {
      var front, last := es[..|es| - 1], es[|es| - 1];
      own, cs := Pass1Facts(h, front, n);
      assert es == front + [last];
      own, cs := Step1Facts(h, Pass1(h, front, n), front, own, cs, last);
    }
  }

  /** What the second pass has reached after the first `m` entries. */
  ghost predicate Filled(h: Hash, a: seq<Node>, cs: seq<seq<nat>>, es: seq<Pair>, m: nat)
  {
    && Ok(h, a, cs) && From(a, es)
    && (forall i :: 0 <= i < |es| ==> MainTaken(h, a, es[i].key))
    && (forall i :: 0 <= i < m && i < |es| ==> Has(a, es[i].key))
    // a key that is not yet passed is in the table only at its main position
    && (forall i :: m <= i < |es| && Has(a, es[i].key) ==> a[Main(h, es[i].key, |a|)].key == es[i].key)
  }

  lemma {:induction false} FilledFirst(h: Hash, a: seq<Node>, cs: seq<seq<nat>>, es: seq<Pair>)
    requires Ok(h, a, cs) && From(a, es) && OnlyMain(h, a)
    requires forall i :: 0 <= i < |es| ==> MainTaken(h, a, es[i].key)
    ensures Filled(h, a, cs, es, 0)
  {
    forall i | 0 <= i < |es| && Has(a, es[i].key) ensures a[Main(h, es[i].key, |a|)].key == es[i].key {
      var s :| 0 <= s < |a| && a[s].Node? && a[s].key == es[i].key;
    }
  }

  /** A key found in its main position needs no slot. */
  lemma {:induction false} FilledSkip(h: Hash, a: seq<Node>, cs: seq<seq<nat>>, es: seq<Pair>, m: nat)
    requires Filled(h, a, cs, es, m) && m < |es| && a[Main(h, es[m].key, |a|)].key == es[m].key
    ensures Filled(h, a, cs, es, m + 1)
  {
    assert MainTaken(h, a, es[m].key);
    assert Has(a, es[m].key);
  }

  /** Another key gets a slot and a place in its chain. */
  lemma {:induction false} FilledLink(h: Hash, a: seq<Node>, cs: seq<seq<nat>>, es: seq<Pair>, m: nat, s: nat)
    requires Filled(h, a, cs, es, m) && Distinct(es) && m < |es| && s < |a| && a[s].Empty?
    requires a[Main(h, es[m].key, |a|)].Node? && a[Main(h, es[m].key, |a|)].key != es[m].key
    ensures var p := Main(h, es[m].key, |a|);
      cs[p] != [] && Filled(h, Linked(h, a, es[m], p, s), cs[p := [p, s] + cs[p][1..]], es, m + 1)
  {
    var e, p := es[m], Main(h, es[m].key, |a|);
    LinkFree(h, a, cs, e, s);
    var a' := Linked(h, a, e, p, s);
    forall i | 0 <= i < |es| ensures MainTaken(h, a', es[i].key) { assert MainTaken(h, a, es[i].key); }
    LinkedKeys(h, a, e, p, s);
    forall i | m + 1 <= i < |es| && Has(a', es[i].key) ensures a'[Main(h, es[i].key, |a|)].key == es[i].key {
      assert es[i].key != e.key && Has(a, es[i].key) && MainTaken(h, a, es[i].key);
    }
  }

  /** Linking adds one key and keeps the others where they are. */
  lemma {:induction false} LinkedKeys(h: Hash, a: seq<Node>, e: Pair, p: nat, s: nat)
    requires p < |a| && s < |a| && a[p].Node? && a[s].Empty?
    ensures var a' := Linked(h, a, e, p, s);
      && (forall t :: 0 <= t < |a| && t != s && a[t].Node? ==>
          a'[t].Node? && a'[t].key == a[t].key && a'[t].value == a[t].value)
      && Has(a', e.key) && (forall k :: Has(a, k) ==> Has(a', k)) && forall k :: Has(a', k) && k != e.key ==> Has(a, k)
  {
    var a' := Linked(h, a, e, p, s);
    assert a'[s].Node? && a'[s].key == e.key;
    forall k | Has(a, k) ensures Has(a', k) {
      var t :| 0 <= t < |a| && a[t].Node? && a[t].key == k;
      assert a'[t].Node? && a'[t].key == k;
    }
    forall k | Has(a', k) && k != e.key ensures Has(a, k) {
      var t :| 0 <= t < |a'| && a'[t].Node? && a'[t].key == k;
      assert a[t].Node? && a[t].key == k;
    }
  }

  /** What the second pass has done after `m` entries, for any entries. */
  ghost predicate Passed2(h: Hash, a: seq<Node>, es: seq<Pair>, own: set<nat>, m: nat)
  {
    From(a, es) && Owned(h, a, es, own, m) && forall i :: 0 <= i < |es| ==> MainTaken(h, a, es[i].key)
  }

  /** An entry that needs a slot finds one: the assertion of `fillcolliding`. */
  lemma {:induction false} SlotLeft(h: Hash, a: seq<Node>, es: seq<Pair>, own: set<nat>, m: nat)
    requires Owned(h, a, es, own, m) && m < |es| <= |a| && !AtMain(h, a, es[m].key)
    ensures m !in own && FirstFree(a, 0) < |a|
  {
    SubsetSize(own, Below(|es|) - {m});
    assert FirstFree(a, 0) == |a| ==> UsedSlots(a) == Below(|a|);
  }

  lemma {:induction false} Step2Facts(h: Hash, a: seq<Node>, es: seq<Pair>, own: set<nat>, cs: seq<seq<nat>>, m: nat)
    returns (own': set<nat>, cs': seq<seq<nat>>)
    requires Passed2(h, a, es, own, m) && m < |es| <= |a| && (Distinct(es) ==> Filled(h, a, cs, es, m))
    ensures var a' := Step2(h, a, es[m]);
      Passed2(h, a', es, own', m + 1) && (Distinct(es) ==> Filled(h, a', cs', es, m + 1))
    ensures !AtMain(h, a, es[m].key) ==> FirstFree(a, 0) < |a| && a[Main(h, es[m].key, |a|)].Node?
  {
    var e, p := es[m], Main(h, es[m].key, |a|);
    assert MainTaken(h, a, e.key);
    if AtMain(h, a, e.key) {
      own', cs' := own, cs;
      if Distinct(es) { FilledSkip(h, a, cs, es, m); }
    } else {
      SlotLeft(h, a, es, own, m);
      var s := FirstFree(a, 0);
      own' := own + {m};
      LinkedPassed(h, a, es, own, m, p, s);
      cs' := if p < |cs| && cs[p] != [] then cs[p := [p, s] + cs[p][1..]] else cs;
      if Distinct(es) { FilledLink(h, a, cs, es, m, s); }
    }
  }

  lemma {:induction false} LinkedPassed(h: Hash, a: seq<Node>, es: seq<Pair>, own: set<nat>, m: nat, p: nat, s: nat)
    requires Passed2(h, a, es, own, m) && m < |es| && m !in own
    requires p < |a| && s < |a| && a[p].Node? && a[s].Empty?
    ensures Passed2(h, Linked(h, a, es[m], p, s), es, own + {m}, m + 1)
  {
    OwnedMore(h, a, Linked(h, a, es[m], p, s), es, own, m, m + 1, s, m);
    LinkedFrom(h, a, es, m, p, s);
    LinkedMain(h, a, es, m, p, s);
  }

  lemma {:induction false} LinkedFrom(h: Hash, a: seq<Node>, es: seq<Pair>, m: nat, p: nat, s: nat)
    requires From(a, es) && m < |es| && p < |a| && s < |a| && a[p].Node? && a[s].Empty?
    ensures From(Linked(h, a, es[m], p, s), es)
  {
    var a' := Linked(h, a, es[m], p, s);
    forall t | 0 <= t < |a'| && a'[t].Node? ensures Pair(a'[t].key, a'[t].value) in es {
      if t != s { assert Pair(a[t].key, a[t].value) in es; }
    }
  }

  lemma {:induction false} LinkedMain(h: Hash, a: seq<Node>, es: seq<Pair>, m: nat, p: nat, s: nat)
    requires m < |es| && p < |a| && s < |a| && a[p].Node? && a[s].Empty?
    requires forall i :: 0 <= i < |es| ==> MainTaken(h, a, es[i].key)
    ensures forall i :: 0 <= i < |es| ==> MainTaken(h, Linked(h, a, es[m], p, s), es[i].key)
  {
    forall i | 0 <= i < |es| ensures MainTaken(h, Linked(h, a, es[m], p, s), es[i].key) {
      assert MainTaken(h, a, es[i].key);
    }
  }

  lemma {:induction false} Pass2Facts(h: Hash, es: seq<Pair>, n: nat, m: nat) returns (own: set<nat>, cs: seq<seq<nat>>)
    requires n > 0 && m <= |es| <= n
    ensures var a := Pass2(h, es[..m], Pass1(h, es, n));
      Passed2(h, a, es, own, m) && (Distinct(es) ==> Filled(h, a, cs, es, m))
    decreases m
  {
    var first := Pass1(h, es, n);
    if m == 0 {
      own, cs := Pass1Facts(h, es, n);
      assert Pass2(h, es[..0], first) == first;
      if Distinct(es) { FilledFirst(h, first, cs, es); }
    } else {
      own, cs := Pass2Facts(h, es, n, m - 1);
      Pass2Unfold(h, es, first, m - 1);
      own, cs := Step2Facts(h, Pass2(h, es[..m - 1], first), es, own, cs, m - 1);
    }
  }

  lemma {:induction false} Pass2Unfold(h: Hash, es: seq<Pair>, a: seq<Node>, m: nat)
    requires m < |es| && |a| > 0
    ensures Pass2(h, es[..m + 1], a) == Step2(h, Pass2(h, es[..m], a), es[m])
  {
    assert es[..m + 1][..m] == es[..m] && es[..m + 1][m] == es[m];
  }

  /** A finished table: every slot holds an entry of the source, every entry of
      the source has its slot. */
  ghost predicate Complete(h: Hash, a: seq<Node>, cs: seq<seq<nat>>, es: seq<Pair>)
  {
    && |a| == |es| && From(a, es)
    && (|a| > 0 ==> Ok(h, a, cs))
    && Full(a)
    && (forall i :: 0 <= i < |es| ==> Has(a, es[i].key))
  }

  /** The two passes use no slot for no entry; if the keys are distinct and as
      many as slots, they use every slot exactly once. */
  lemma {:induction false} PassesFill(h: Hash, es: seq<Pair>, n: nat) returns (cs: seq<seq<nat>>)
    requires |es| <= n
    ensures var a := HashPart(h, es, n);
      From(a, es) && |UsedSlots(a)| <= |es| && (Distinct(es) && |es| == n ==> Complete(h, a, cs, es))
  {
    var a := HashPart(h, es, n);
    if n == 0 {
      cs := [];
      assert UsedSlots(a) == {};
    } else {
      var own;
      own, cs := Pass2Facts(h, es, n, |es|);
      assert es[..|es|] == es;
      SubsetSize(own, Below(|es|));
      if Distinct(es) && |es| == n { AllUsed(a, es); }
    }
  }

  // ----------------------------------------------------------- the source table

  /** The conversion to `int` of a 64-bit integer. */
  function ToInt(i: Int64): Int32
  {
    var m := i % P32;
    if m < P31 then m else m - P32
  }

  /** The key as `ishashkey` stores it: integers lose their upper half, and the
      string of a table is the empty one. */
  function Conv(k: LuaKey): Key
  {
    match k
    case LInt(i) => IntKey(ToInt(i))
    case LStr(s) => StrKey(s)
    case LTable(_) => StrKey([])
    case LOther(_) => StrKey([])
  }

  predicate InCells(k: Key, n: nat) { k.IntKey? && 0 < k.i <= n }

  /** A key that `countsize` counts. */
  predicate Outside(k: LuaKey, n: nat) { !(k.LInt? && 0 < k.i <= n) }

  datatype Entry = Entry(key: LuaKey, value: int)

  /** The entries of a table in the order of traversal; `n` is its length. */
  ghost predicate LuaTable(es: seq<Entry>, n: nat)
  {
    n < P31 && forall i, j :: 0 <= i < j < |es| ==> es[i].key != es[j].key
  }

  /** `countsize`: keys that do not belong to the array part; none when it raises
      an error. */
  function CountSize(es: seq<Entry>, n: nat): Opt<nat>
    decreases |es|
  {
    if es == [] then Some(0) else
    var c, k := CountSize(es[..|es| - 1], n), es[|es| - 1].key;
    if c.None? || k.LOther? then None else Some(if Outside(k, n) then c.v + 1 else c.v)
  }

  /** The entries that `ishashkey` takes for the hash part. */
  function HashPairs(es: seq<Entry>, n: nat): seq<Pair>
    decreases |es|
  {
    if es == [] then [] else
    var front, e := HashPairs(es[..|es| - 1], n), es[|es| - 1];
    if InCells(Conv(e.key), n) then front else front + [Pair(Conv(e.key), e.value)]
  }

  type Cells = c: seq<Opt<int>> | |c| < P31

  /** The array part after the traversal. */
  function CellsOf(es: seq<Entry>, n: nat): (c: Cells)
    requires n < P31
    ensures |c| == n
    decreases |es|
  {
    if es == [] then seq(n, _ => None) else
    var front, e := CellsOf(es[..|es| - 1], n), es[|es| - 1];
    if InCells(Conv(e.key), n) then front[Conv(e.key).i - 1 := Some(e.value)] else front
  }

  /** The source entry at integer `k`. */
  function RawGet(es: seq<Entry>, k: Int64): Opt<int>
    decreases |es|
  {
    if es == [] then None else
    var e := es[|es| - 1];
    if e.key == LInt(k) then Some(e.value) else RawGet(es[..|es| - 1], k)
  }

  /** No key outside the array part is cut to one inside. */
  ghost predicate NoStray(es: seq<Entry>, n: nat)
  {
    forall i :: 0 <= i < |es| && Outside(es[i].key, n) ==> !InCells(Conv(es[i].key), n)
  }

  lemma InsideKept(k: LuaKey, n: nat)
    requires n < P31 && !Outside(k, n)
    ensures Conv(k) == IntKey(k.i) && InCells(Conv(k), n)
  {
  }

  /** Slots are counted for every key of the hash part, and for strays. */
  lemma {:induction false} CountPairs(es: seq<Entry>, n: nat)
    requires n < P31 && CountSize(es, n).Some?
    ensures |HashPairs(es, n)| <= CountSize(es, n).v
    ensures |HashPairs(es, n)| == CountSize(es, n).v <==> NoStray(es, n)
    decreases |es|
  {
    if es != [] {
      var front, last := es[..|es| - 1], es[|es| - 1];
      CountPairs(front, n);
      if !Outside(last.key, n) { InsideKept(last.key, n); }
      assert NoStray(es, n) <==> NoStray(front, n) && (Outside(last.key, n) ==> !InCells(Conv(last.key), n)) by {
        assert es == front + [last];
        if NoStray(es, n) { forall i | 0 <= i < |front| && Outside(front[i].key, n)
          ensures !InCells(Conv(front[i].key), n) { assert es[i] == front[i]; } }
      }
    }
  }

  lemma {:induction false} CellExact(es: seq<Entry>, n: nat, k: nat)
    requires n < P31 && NoStray(es, n) && 0 < k <= n
    ensures CellsOf(es, n)[k - 1] == RawGet(es, k)
    decreases |es|
  {
    if es != [] {
      var front, last := es[..|es| - 1], es[|es| - 1];
      assert NoStray(front, n);
      CellExact(front, n, k);
      if !Outside(last.key, n) { InsideKept(last.key, n); }
    }
  }

  lemma {:induction false} RawGetIs(es: seq<Entry>, k: Int64)
    ensures RawGet(es, k).Some? ==> exists i :: 0 <= i < |es| && es[i] == Entry(LInt(k), RawGet(es, k).v)
    ensures RawGet(es, k).None? ==> forall i :: 0 <= i < |es| ==> es[i].key != LInt(k)
    decreases |es|
  {
    if es != [] {
      var front, last := es[..|es| - 1], es[|es| - 1];
      RawGetIs(front, k);
      assert es == front + [last];
    }
  }

  /** A pair of the hash part comes from an entry, and the other way round. */
  lemma {:induction false} PairsFrom(es: seq<Entry>, n: nat)
    ensures forall p :: p in HashPairs(es, n) ==> Source(es, n, p)
    ensures forall i :: 0 <= i < |es| && !InCells(Conv(es[i].key), n) ==>
      Pair(Conv(es[i].key), es[i].value) in HashPairs(es, n)
    decreases |es|
  {
    if es != [] {
      var front, last := es[..|es| - 1], es[|es| - 1];
      PairsFrom(front, n);
      assert es == front + [last];
      forall p | p in HashPairs(es, n) ensures Source(es, n, p) {
        if p in HashPairs(front, n) {
          assert Source(front, n, p);
          var i :| 0 <= i < |front| && IsPair(front[i], n, p);
          assert IsPair(es[i], n, p);
        } else {
          assert IsPair(es[|es| - 1], n, p);
        }
      }
    }
  }

  predicate IsPair(e: Entry, n: nat, p: Pair)
  {
    !InCells(Conv(e.key), n) && p == Pair(Conv(e.key), e.value)
  }

  ghost predicate Source(es: seq<Entry>, n: nat, p: Pair)
  {
    exists i :: 0 <= i < |es| && IsPair(es[i], n, p)
  }

  /** Keys outside the array part stay different. */
  ghost predicate Injective(es: seq<Entry>, n: nat)
  {
    forall i, j :: 0 <= i < j < |es| && Outside(es[i].key, n) && Outside(es[j].key, n) ==>
      Conv(es[i].key) != Conv(es[j].key)
  }

  lemma {:induction false} PairsDistinct(es: seq<Entry>, n: nat)
    requires n < P31 && Injective(es, n)
    ensures Distinct(HashPairs(es, n))
    decreases |es|
  {
    if es != [] {
      var front, last := es[..|es| - 1], es[|es| - 1];
      assert Injective(front, n);
      PairsDistinct(front, n);
      var ps := HashPairs(front, n);
      if !InCells(Conv(last.key), n) {
        forall j | 0 <= j < |ps| ensures ps[j].key != Conv(last.key) {
          PairsFrom(front, n);
          assert Source(front, n, ps[j]);
          var i :| 0 <= i < |front| && IsPair(front[i], n, ps[j]);
          assert es[i] == front[i];
          OutsideIf(front[i].key, n);
          OutsideIf(last.key, n);
        }
      }
    }
  }

  lemma OutsideIf(k: LuaKey, n: nat)
    requires n < P31 && !InCells(Conv(k), n)
    ensures Outside(k, n)
  {
    if !Outside(k, n) { InsideKept(k, n); }
  }

  // ------------------------------------------------------------------ the table

  datatype Table = Table(cells: Cells, hash: seq<Node>)

  /** `convtable`, when `countsize` raises no error. */
  function TableOf(h: Hash, es: seq<Entry>, n: nat): Table
    requires n < P31 && CountSize(es, n).Some?
  {
    Table(CellsOf(es, n), HashPart(h, HashPairs(es, n), CountSize(es, n).v))
  }

  datatype Answer = Refused | Value(v: Opt<int>)

  /** `lindexconf` */
  function Index(h: Hash, t: Table, k: LuaKey): Answer
  {
    if k.LTable? || k.LOther? then Refused
    else if InCells(Conv(k), |t.cells|) then Value(t.cells[Conv(k).i - 1])
    else
      var s := Lookup(h, t.hash, Conv(k));
      Value(if 0 <= s < |t.hash| && t.hash[s].Node? then Some(t.hash[s].value) else None)
  }

  /** Where a key is found. */
  datatype Place = Cell(i: int) | Slot(s: int)

  function Find(h: Hash, t: Table, k: LuaKey): Place
  {
    if InCells(Conv(k), |t.cells|) then Cell(Conv(k).i) else Slot(Lookup(h, t.hash, Conv(k)))
  }

  /** Every slot is in use, and every key of the source finds its value, in a
      place of its own. */
  ghost predicate Serves(h: Hash, t: Table, es: seq<Entry>)
  {
    && Full(t.hash)
    && (forall i :: 0 <= i < |es| ==> Index(h, t, es[i].key) == Value(Some(es[i].value)))
    && (forall i, j :: 0 <= i < j < |es| ==> Find(h, t, es[i].key) != Find(h, t, es[j].key))
  }

  /** What a caller can tell from the keys: no key is a table, no two keys outside
      the array part are cut to the same one, and none to one inside it. */
  ghost predicate Fits(es: seq<Entry>, n: nat)
  {
    (forall i :: 0 <= i < |es| ==> !es[i].key.LTable?) && Injective(es, n) && NoStray(es, n)
  }

  /** The table of a source that fits is complete. */
  lemma {:induction false} FitsComplete(h: Hash, es: seq<Entry>, n: nat) returns (cs: seq<seq<nat>>)
    requires LuaTable(es, n) && CountSize(es, n).Some? && Injective(es, n) && NoStray(es, n)
    ensures Complete(h, TableOf(h, es, n).hash, cs, HashPairs(es, n)) && Distinct(HashPairs(es, n))
  {
    PairsDistinct(es, n);
    CountPairs(es, n);
    cs := PassesFill(h, HashPairs(es, n), CountSize(es, n).v);
  }

  /** The slot of an entry of the hash part. */
  lemma {:induction false} SlotOf(h: Hash, a: seq<Node>, cs: seq<seq<nat>>, ps: seq<Pair>, p: Pair)
    requires Complete(h, a, cs, ps) && Distinct(ps) && p in ps
    ensures var s := Lookup(h, a, p.key); 0 <= s < |a| && a[s].Node? && a[s].key == p.key && a[s].value == p.value
  {
    LookupExact(h, a, cs, p.key);
    var j :| 0 <= j < |ps| && ps[j] == p;
    assert Has(a, ps[j].key);
    var s := Lookup(h, a, p.key);
    assert Pair(a[s].key, a[s].value) in ps;
  }

  /** A fitting entry is found, where its key says. */
  lemma {:induction false} EntryFound(h: Hash, es: seq<Entry>, n: nat, cs: seq<seq<nat>>, i: nat)
    requires LuaTable(es, n) && CountSize(es, n).Some? && Fits(es, n) && i < |es|
    requires Complete(h, TableOf(h, es, n).hash, cs, HashPairs(es, n)) && Distinct(HashPairs(es, n))
    ensures var t, k := TableOf(h, es, n), es[i].key;
      && !k.LOther? && Index(h, t, k) == Value(Some(es[i].value))
      && (Outside(k, n) ==> var s := Lookup(h, t.hash, Conv(k));
          Find(h, t, k) == Slot(s) && 0 <= s < |t.hash| && t.hash[s].key == Conv(k))
      && (!Outside(k, n) ==> Find(h, t, k) == Cell(k.i))
  {
    var t, k := TableOf(h, es, n), es[i].key;
    NoOther(es, n, i);
    if Outside(k, n) {
      PairsFrom(es, n);
      SlotOf(h, t.hash, cs, HashPairs(es, n), Pair(Conv(k), es[i].value));
    } else {
      InsideKept(k, n);
      CellExact(es, n, k.i);
      RawGetIs(es, k.i);
    }
  }

  lemma {:induction false} NoOther(es: seq<Entry>, n: nat, i: nat)
    requires CountSize(es, n).Some? && i < |es|
    ensures !es[i].key.LOther?
    decreases |es|
  {
    if i < |es| - 1 { NoOther(es[..|es| - 1], n, i); }
  }

  /** The table serves its source exactly when the source fits. */
  lemma {:induction false} ServesIff(h: Hash, es: seq<Entry>, n: nat)
    requires LuaTable(es, n) && CountSize(es, n).Some?
    ensures Serves(h, TableOf(h, es, n), es) <==> Fits(es, n)
  {
    if Fits(es, n) { FitsServes(h, es, n); }
    if Serves(h, TableOf(h, es, n), es) { ServesFits(h, es, n); }
  }

  lemma {:induction false} FitsServes(h: Hash, es: seq<Entry>, n: nat)
    requires LuaTable(es, n) && CountSize(es, n).Some? && Fits(es, n)
    ensures Serves(h, TableOf(h, es, n), es)
  {
    var t := TableOf(h, es, n);
    var cs := FitsComplete(h, es, n);
    forall i | 0 <= i < |es| ensures Index(h, t, es[i].key) == Value(Some(es[i].value)) { EntryFound(h, es, n, cs, i); }
    forall i, j | 0 <= i < j < |es| ensures Find(h, t, es[i].key) != Find(h, t, es[j].key) {
      EntryFound(h, es, n, cs, i);
      EntryFound(h, es, n, cs, j);
      assert es[i].key != es[j].key;
    }
  }

  lemma {:induction false} ServesFits(h: Hash, es: seq<Entry>, n: nat)
    requires LuaTable(es, n) && CountSize(es, n).Some? && Serves(h, TableOf(h, es, n), es)
    ensures Fits(es, n)
  {
    var t := TableOf(h, es, n);
    forall i | 0 <= i < |es| ensures !es[i].key.LTable? { assert Index(h, t, es[i].key) == Value(Some(es[i].value)); }
    forall i, j | 0 <= i < j < |es| && Outside(es[i].key, n) && Outside(es[j].key, n)
      ensures Conv(es[i].key) != Conv(es[j].key) {
      assert Find(h, t, es[i].key) != Find(h, t, es[j].key);
    }
    CountPairs(es, n);
    var cs := PassesFill(h, HashPairs(es, n), |t.hash|);
    assert UsedSlots(t.hash) == Below(|t.hash|);
  }

  /** What a fitting table answers to any key: a value exactly when some source
      key is cut to the same one. */
  lemma {:induction false} IndexExact(h: Hash, es: seq<Entry>, n: nat, k: LuaKey)
    requires LuaTable(es, n) && CountSize(es, n).Some? && Fits(es, n) && (k.LInt? || k.LStr?)
    ensures var r := Index(h, TableOf(h, es, n), k);
      r.Value? && (r.v.None? <==> forall i :: 0 <= i < |es| ==> Conv(es[i].key) != Conv(k))
  {
    if InCells(Conv(k), n) {
      CellAnswer(es, n, k);
    } else {
      HashAnswer(h, es, n, k);
    }
  }

  lemma {:induction false} CellAnswer(es: seq<Entry>, n: nat, k: LuaKey)
    requires LuaTable(es, n) && NoStray(es, n) && InCells(Conv(k), n)
    ensures CellsOf(es, n)[Conv(k).i - 1].None? <==> forall i :: 0 <= i < |es| ==> Conv(es[i].key) != Conv(k)
  {
    var c := Conv(k).i;
    CellExact(es, n, c);
    RawGetIs(es, c);
    forall i | 0 <= i < |es| && Conv(es[i].key) == Conv(k) ensures es[i].key == LInt(c) { InsideKept(es[i].key, n); }
    if RawGet(es, c).Some? {
      var i :| 0 <= i < |es| && es[i] == Entry(LInt(c), RawGet(es, c).v);
      InsideKept(es[i].key, n);
    }
  }

  lemma {:induction false} HashAnswer(h: Hash, es: seq<Entry>, n: nat, k: LuaKey)
    requires LuaTable(es, n) && CountSize(es, n).Some? && Fits(es, n) && !InCells(Conv(k), n)
    ensures var a := TableOf(h, es, n).hash;
      var s := Lookup(h, a, Conv(k));
      s < |a| && (s >= 0 ==> a[s].Node?) && (s < 0 <==> forall i :: 0 <= i < |es| ==> Conv(es[i].key) != Conv(k))
  {
    var a, ps := TableOf(h, es, n).hash, HashPairs(es, n);
    var cs := FitsComplete(h, es, n);
    PairsFrom(es, n);
    LookupExact(h, a, cs, Conv(k));
    forall i | 0 <= i < |es| && Conv(es[i].key) == Conv(k) ensures Has(a, Conv(k)) {
      var j :| 0 <= j < |ps| && ps[j] == Pair(Conv(k), es[i].value);
      assert Has(a, ps[j].key);
    }
    var s := Lookup(h, a, Conv(k));
    if s >= 0 { assert Source(es, n, Pair(a[s].key, a[s].value)); }
  }

  /** Two keys that differ by 2^32. */
  function WideSource(v: int, w: int): seq<Entry> { [Entry(LInt(5), v), Entry(LInt(5 + P32), w)] }

  lemma WideCut()
    ensures Conv(LInt(5)) == Conv(LInt(5 + P32)) == IntKey(5)
  {
  }

  lemma {:induction false} WidePairs(v: int, w: int)
    ensures var es := WideSource(v, w);
      && CountSize(es, 0) == Some(2) && HashPairs(es, 0) == [Pair(IntKey(5), v), Pair(IntKey(5), w)]
      && CellsOf(es, 0) == []
  {
    var es, e0, k := WideSource(v, w), Entry(LInt(5), v), IntKey(5);
    WideCut();
    assert es[..1] == [e0] && [e0][..0] == [];
    assert CountSize([e0], 0) == Some(1) && HashPairs([e0], 0) == [Pair(k, v)];
  }

  /** One of the two slots stays unused, for every hash function, and both keys
      give the value of the first. */
  lemma {:induction false} WideKeys(h: Hash, v: int, w: int)
    ensures var es := WideSource(v, w);
      && LuaTable(es, 0) && CountSize(es, 0) == Some(2) && !Fits(es, 0)
      && var t := TableOf(h, es, 0);
      && (exists s :: 0 <= s < |t.hash| && t.hash[s].Empty?)
      && Index(h, t, LInt(5)) == Index(h, t, LInt(5 + P32)) == Value(Some(v))
  {
    var es := WideSource(v, w);
    WideCut();
    WidePairs(v, w);
    var a := OneSlot(h, IntKey(5), v, w);
    assert TableOf(h, es, 0) == Table([], a);
    assert !Injective(es, 0) by { assert Outside(es[0].key, 0) && Outside(es[1].key, 0); }
  }

  /** Two pairs with one key take one slot of two. */
  lemma {:induction false} OneSlot(h: Hash, k: Key, v: int, w: int) returns (a: seq<Node>)
    ensures a == HashPart(h, [Pair(k, v), Pair(k, w)], 2) && exists s :: 0 <= s < |a| && a[s].Empty?
    ensures var s := Lookup(h, a, k); 0 <= s < |a| && a[s].Node? && a[s].value == v
  {
    var ps, p := [Pair(k, v), Pair(k, w)], Main(h, k, 2);
    assert ps[..1] == [Pair(k, v)] && [Pair(k, v)][..0] == [];
    a := Pass1(h, [], 2)[p := Node(k, v, h(k), -1, true)];
    assert Pass1(h, [Pair(k, v)], 2) == a;
    assert Pass1(h, ps, 2) == a;
    assert Pass2(h, [Pair(k, v)], a) == a by { assert Pass2(h, [], a) == a; }
    assert Pass2(h, ps, a) == a;
    assert a[1 - p].Empty?;
    assert Walk(a, k, h(k), p, 2) == p;
  }

  // --------------------------------------------------------------------- in place

  /** `fillnocolliding` */
  method FillNoColliding(h: Hash, es: seq<Entry>, cells: array<Opt<int>>, a: array<Node>)
    requires cells.Length < P31 && a.Length > 0 && cells[..] == CellsOf([], cells.Length) &&
      a[..] == Pass1(h, [], a.Length)
    modifies cells, a
    ensures cells[..] == CellsOf(es, cells.Length)
    ensures a[..] == Pass1(h, HashPairs(es, cells.Length), a.Length)
  {
    ghost var n := cells.Length;
    for m := 0 to |es|
      invariant cells[..] == CellsOf(es[..m], n) && a[..] == Pass1(h, HashPairs(es[..m], n), a.Length)
    {
      var e := es[m];
      var key := Conv(e.key);
      assert es[..m + 1][..m] == es[..m] && es[..m + 1][m] == e;
      if InCells(key, cells.Length) {
        cells[key.i - 1] := Some(e.value);
      } else {
        ghost var ps := HashPairs(es[..m], n);
        assert HashPairs(es[..m + 1], n) == ps + [Pair(key, e.value)];
        assert (ps + [Pair(key, e.value)])[..|ps|] == ps;
        var p := h(key) % a.Length;
        if a[p].Empty? { a[p] := Node(key, e.value, h(key), -1, true); }
      }
    }
    assert es[..|es|] == es;
  }

  /** The search for a free slot, which the code asserts to succeed. */
  method FreeSlot(a: array<Node>) returns (i: nat)
    requires FirstFree(a[..], 0) < a.Length
    ensures i == FirstFree(a[..], 0)
  {
    i := 0;
    while !a[i].Empty?
      invariant i < a.Length && FirstFree(a[..], i) == FirstFree(a[..], 0)
      decreases a.Length - i
    {
      i := i + 1;
    }
  }

  lemma {:induction false} PairsPrefix(es: seq<Entry>, n: nat, m: nat)
    requires m <= |es|
    ensures HashPairs(es[..m], n) <= HashPairs(es, n)
    decreases |es|
  {
    if m == |es| { assert es[..m] == es; }
    else {
      assert es[..|es| - 1][..m] == es[..m];
      PairsPrefix(es[..|es| - 1], n, m);
    }
  }

  lemma {:induction false} PairsNext(es: seq<Entry>, n: nat, m: nat)
    requires m < |es| && !InCells(Conv(es[m].key), n)
    ensures var ps, pair := HashPairs(es[..m], n), Pair(Conv(es[m].key), es[m].value);
      HashPairs(es[..m + 1], n) == ps + [pair] && ps + [pair] <= HashPairs(es, n)
  {
    assert es[..m + 1][..m] == es[..m] && es[..m + 1][m] == es[m];
    PairsPrefix(es, n, m + 1);
  }

  /** The second pass at the next entry of the hash part. */
  lemma {:induction false} Pass2Next(h: Hash, all: seq<Pair>, m: nat, size: nat)
    requires 0 < size && m < |all| <= size
    ensures var b := Pass2(h, all[..m], Pass1(h, all, size));
      && Pass2(h, all[..m + 1], Pass1(h, all, size)) == Step2(h, b, all[m])
      && b[Main(h, all[m].key, size)].Node? && (!AtMain(h, b, all[m].key) ==> FirstFree(b, 0) < size)
  {
    Pass2Unfold(h, all, Pass1(h, all, size), m);
    var own, cs := Pass2Facts(h, all, size, m);
    var b := Pass2(h, all[..m], Pass1(h, all, size));
    assert MainTaken(h, b, all[m].key);
    if !AtMain(h, b, all[m].key) { SlotLeft(h, b, all, own, m); }
  }

  /** One key in `fillcolliding`. */
  method FillOne(h: Hash, e: Pair, a: array<Node>)
    requires a.Length > 0 && a[Main(h, e.key, a.Length)].Node?
    requires !AtMain(h, a[..], e.key) ==> FirstFree(a[..], 0) < a.Length
    modifies a
    ensures a[..] == Step2(h, old(a[..]), e)
  {
    var p := h(e.key) % a.Length;
    if !(a[p].key == e.key) {
      ghost var b := a[..];
      var s := FreeSlot(a);
      a[s] := Node(e.key, e.value, h(e.key), a[p].next, false);
      a[p] := a[p].(next := s, nocolliding := false);
      assert a[..] == Linked(h, b, e, p, s);
    }
  }

  /** `fillcolliding`; its assertion holds for every source table. */
  method FillColliding(h: Hash, es: seq<Entry>, n: nat, a: array<Node>)
    requires |HashPairs(es, n)| <= a.Length && a.Length > 0 && a[..] == Pass1(h, HashPairs(es, n), a.Length)
    modifies a
    ensures a[..] == HashPart(h, HashPairs(es, n), a.Length)
  {
    ghost var all, first := HashPairs(es, n), a[..];
    for m := 0 to |es|
      invariant a[..] == Pass2(h, HashPairs(es[..m], n), first)
    {
      var e := Pair(Conv(es[m].key), es[m].value);
      if InCells(e.key, n) {
        assert es[..m + 1][..m] == es[..m] && es[..m + 1][m] == es[m];
      } else {
        PairAfter(h, es, n, m, a.Length);
        FillOne(h, e, a);
      }
    }
    assert es[..|es|] == es;
  }

  /** The second pass at the next entry of the source. */
  lemma {:induction false} PairAfter(h: Hash, es: seq<Entry>, n: nat, m: nat, size: nat)
    requires m < |es| && !InCells(Conv(es[m].key), n) && 0 < size && |HashPairs(es, n)| <= size
    ensures var e, first := Pair(Conv(es[m].key), es[m].value), Pass1(h, HashPairs(es, n), size);
      var b := Pass2(h, HashPairs(es[..m], n), first);
      && Pass2(h, HashPairs(es[..m + 1], n), first) == Step2(h, b, e)
      && b[Main(h, e.key, size)].Node? && (!AtMain(h, b, e.key) ==> FirstFree(b, 0) < size)
  {
    var all, ps := HashPairs(es, n), HashPairs(es[..m], n);
    var e := Pair(Conv(es[m].key), es[m].value);
    PairsNext(es, n, m);
    assert all[..|ps|] == ps && all[|ps|] == e && all[..|ps| + 1] == ps + [e];
    Pass2Next(h, all, |ps|, size);
  }

  /** `countsize` */
  method CountKeys(es: seq<Entry>, n: nat) returns (r: Opt<nat>)
    ensures r == CountSize(es, n)
  {
    var c := 0;
    for m := 0 to |es|
      invariant CountSize(es[..m], n) == Some(c)
    {
      assert es[..m + 1][..m] == es[..m] && es[..m + 1][m] == es[m];
      if es[m].key.LOther? {
        CountFails(es, n, m);
        return None;
      }
      c := c + 1;
      if es[m].key.LInt? && 0 < es[m].key.i <= n { c := c - 1; }
    }
    assert es[..|es|] == es;
    r := Some(c);
  }

  lemma {:induction false} CountFails(es: seq<Entry>, n: nat, m: nat)
    requires m < |es| && es[m].key.LOther?
    ensures CountSize(es, n).None?
    decreases |es|
  {
    if m < |es| - 1 { CountFails(es[..|es| - 1], n, m); }
  }

  /** `convtable`: an error for a key of the wrong type, or the two parts. */
  method ConvTable(h: Hash, es: seq<Entry>, n: nat) returns (ok: bool, cells: array<Opt<int>>, a: array<Node>)
    requires LuaTable(es, n)
    ensures fresh(cells) && fresh(a) && ok == CountSize(es, n).Some?
    ensures ok ==> cells.Length == n && cells[..] == TableOf(h, es, n).cells && a[..] == TableOf(h, es, n).hash
  {
    cells := new Opt<int>[n](_ => None);
    a := new Node[0];
    var sizehash := CountKeys(es, n);
    if sizehash.None? { return false, cells, a; }
    ok := true;
    CountPairs(es, n);
    if sizehash.v > 0 {
      a := new Node[sizehash.v](_ => Empty);
      FillNoColliding(h, es, cells, a);
      FillColliding(h, es, n, a);
    } else {
      for i := 0 to n
        invariant forall k :: 0 <= k < i ==> cells[k] == RawGet(es, k + 1)
      {
        cells[i] := RawGet(es, i + 1);
      }
      forall k | 0 <= k < n ensures cells[k] == CellsOf(es, n)[k] { CellExact(es, n, k + 1); }
    }
  }

  /** `lindexconf` on a full table. */
  method IndexConf(h: Hash, cells: array<Opt<int>>, a: array<Node>, k: LuaKey, ghost cs: seq<seq<nat>>)
    returns (r: Answer)
    requires cells.Length < P31 && (a.Length > 0 ==> Ok(h, a[..], cs) && Full(a[..]))
    ensures r == Index(h, Table(cells[..], a[..]), k)
  {
    if k.LTable? || k.LOther? { return Refused; }
    var key := Conv(k);
    if InCells(key, cells.Length) { return Value(cells[key.i - 1]); }
    var s := LookupKey(h, a, key, cs);
    r := Value(if s >= 0 then Some(a[s].value) else None);
  }

  // ---------------------------------------------------------------- iteration

  /** Keys of the array part that are not nil, from index `i` on. */
  function ArrayKeys(cells: Cells, i: nat): seq<Key>
    requires i <= |cells|
    decreases |cells| - i
  {
    if i == |cells| then [] else (if cells[i].Some? then [IntKey(i + 1)] else []) + ArrayKeys(cells, i + 1)
  }

  function HashKeys(a: seq<Node>): (ks: seq<Key>)
    requires Full(a)
    ensures |ks| == |a| && forall s :: 0 <= s < |a| ==> ks[s] == a[s].key
  {
    seq(|a|, s requires 0 <= s < |a| => a[s].key)
  }

  /** The order in which `lnextkey` goes through a table. */
  ghost function Order(cells: Cells, a: seq<Node>): seq<Key>
    requires Full(a)
  {
    ArrayKeys(cells, 0) + HashKeys(a)
  }

  /** The first cells index from `i` on, or the first hash key. */
  method NextFrom(cells: Cells, a: array<Node>, i0: nat) returns (r: Opt<Key>)
    requires i0 <= |cells| && Full(a[..])
    ensures var rest := ArrayKeys(cells, i0) + HashKeys(a[..]); r == if rest == [] then None else Some(rest[0])
  {
    var i := i0;
    while i < |cells|
      invariant i0 <= i <= |cells| && ArrayKeys(cells, i0) == ArrayKeys(cells, i)
    {
      if cells[i].Some? { return Some(IntKey(i + 1)); }
      i := i + 1;
    }
    if a.Length > 0 { r := Some(a[0].key); } else { r := None; }
  }

  /** `lnextkey` */
  method NextKey(h: Hash, cells: Cells, a: array<Node>, k: Opt<Key>, ghost cs: seq<seq<nat>>, ghost es: seq<Pair>)
    returns (r: Opt<Key>)
    requires Complete(h, a[..], cs, es) && forall i :: 0 <= i < |es| ==> !InCells(es[i].key, |cells|)
    ensures IsNext(Order(cells, a[..]), k, r)
  {
    ghost var t := a[..];
    ghost var all := Order(cells, t);
    if k.None? { r := NextFrom(cells, a, 0); return; }
    if InCells(k.v, |cells|) {
      r := NextFrom(cells, a, k.v.i);
      forall j | 0 <= j < |all| && all[j] == k.v ensures Follows(all, j, r) { AfterArrayKey(cells, t, es, k.v, j); }
      return;
    }
    var i := LookupKey(h, a, k.v, cs);
    if i >= 0 && i + 1 < a.Length { r := Some(a[i + 1].key); } else { r := None; }
    forall j | 0 <= j < |all| && all[j] == k.v ensures Follows(all, j, r) {
      AfterHashKey(h, cells, t, cs, k.v, j);
      assert Has(t, k.v);
    }
  }

  /** `r` is what comes after place `j`. */
  ghost predicate Follows(all: seq<Key>, j: nat, r: Opt<Key>)
  {
    r == if j + 1 < |all| then Some(all[j + 1]) else None
  }

  /** `r` is the key after `k`, or the first one. */
  ghost predicate IsNext(all: seq<Key>, k: Opt<Key>, r: Opt<Key>)
  {
    if k.None? then r == if all == [] then None else Some(all[0])
    else forall j :: 0 <= j < |all| && all[j] == k.v ==> Follows(all, j, r)
  }

  /** No key comes twice. */
  ghost predicate Once(ks: seq<Key>)
  {
    forall i, j :: 0 <= i < j < |ks| ==> ks[i] != ks[j]
  }

  /** Keys of the array part are in range, and behind key `i` come the rest. */
  lemma {:induction false} ArrayKeyAt(cells: Cells, i: nat, j: nat)
    requires i <= |cells| && j < |ArrayKeys(cells, i)|
    ensures var k := ArrayKeys(cells, i)[j];
      k.IntKey? && i < k.i <= |cells| && ArrayKeys(cells, i)[j + 1..] == ArrayKeys(cells, k.i)
    decreases |cells| - i
  {
    var ks := ArrayKeys(cells, i);
    if cells[i].Some? {
      assert ks[1..] == ArrayKeys(cells, i + 1);
      if j > 0 {
        ArrayKeyAt(cells, i + 1, j - 1);
        assert ks[j + 1..] == ks[1..][j..];
      }
    } else {
      assert ks == ArrayKeys(cells, i + 1);
      ArrayKeyAt(cells, i + 1, j);
    }
  }

  lemma {:induction false} AfterArrayKey(cells: Cells, a: seq<Node>, es: seq<Pair>, k: Key, j: nat)
    requires Full(a) && From(a, es) && (forall i :: 0 <= i < |es| ==> !InCells(es[i].key, |cells|))
    requires InCells(k, |cells|) && j < |Order(cells, a)| && Order(cells, a)[j] == k
    ensures var rest := ArrayKeys(cells, k.i) + HashKeys(a);
      (rest != [] <==> j + 1 < |Order(cells, a)|) && (rest != [] ==> rest[0] == Order(cells, a)[j + 1])
  {
    var ks := ArrayKeys(cells, 0);
    forall s | 0 <= s < |a| ensures !InCells(HashKeys(a)[s], |cells|) { HashKeyOutside(cells, a, es, s); }
    assert j < |ks|;
    ArrayKeyAt(cells, 0, j);
    assert Order(cells, a)[j + 1..] == ks[j + 1..] + HashKeys(a);
    var rest := ArrayKeys(cells, k.i) + HashKeys(a);
    assert rest == Order(cells, a)[j + 1..];
  }

  lemma {:induction false} AfterHashKey(h: Hash, cells: Cells, a: seq<Node>, cs: seq<seq<nat>>, k: Key, j: nat)
    requires Full(a) && (|a| > 0 ==> Ok(h, a, cs))
    requires !InCells(k, |cells|) && j < |Order(cells, a)| && Order(cells, a)[j] == k
    ensures var n := |ArrayKeys(cells, 0)|; n <= j && a[j - n].key == k && Has(a, k)
    ensures forall s :: 0 <= s < |a| && a[s].key == k ==> s == j - |ArrayKeys(cells, 0)|
  {
    var n := |ArrayKeys(cells, 0)|;
    if j < n { ArrayKeyAt(cells, 0, j); }
    assert a[j - n].key == k;
  }

  /** No key is visited twice, and every key of the table is visited. */
  lemma {:induction false} OrderExact(h: Hash, cells: Cells, a: seq<Node>, cs: seq<seq<nat>>, es: seq<Pair>)
    requires Complete(h, a, cs, es) && Distinct(es) && forall i :: 0 <= i < |es| ==> !InCells(es[i].key, |cells|)
    ensures var all := Order(cells, a);
      && Once(all)
      && (forall k :: k in all <==> k in KeysOf(es) || (InCells(k, |cells|) && cells[k.i - 1].Some?))
  {
    var all, ks := Order(cells, a), ArrayKeys(cells, 0);
    ArrayKeysExact(cells, 0);
    var hs := HashKeys(a);
    assert forall i, j :: 0 <= i < j < |a| ==> a[i].key != a[j].key;
    forall i, j | 0 <= i < |ks| && 0 <= j < |hs| ensures ks[i] != hs[j] {
      HashKeyOutside(cells, a, es, j);
      assert ks[i] in ks;
    }
    OnceCat(ks, hs);
    forall k ensures k in all <==> k in KeysOf(es) || (InCells(k, |cells|) && cells[k.i - 1].Some?) {
      HashKeysExact(h, a, cs, es, k);
      assert k in all <==> k in ks || k in HashKeys(a);
    }
  }

  lemma {:induction false} OnceCat(ks: seq<Key>, hs: seq<Key>)
    requires Once(ks) && Once(hs) && forall i, j :: 0 <= i < |ks| && 0 <= j < |hs| ==> ks[i] != hs[j]
    ensures Once(ks + hs)
  {
  }

  lemma {:induction false} HashKeyOutside(cells: Cells, a: seq<Node>, es: seq<Pair>, s: nat)
    requires From(a, es) && (forall i :: 0 <= i < |es| ==> !InCells(es[i].key, |cells|)) && s < |a| && a[s].Node?
    ensures !InCells(a[s].key, |cells|)
  {
    var i :| 0 <= i < |es| && es[i] == Pair(a[s].key, a[s].value);
  }

  lemma {:induction false} HashKeysExact(h: Hash, a: seq<Node>, cs: seq<seq<nat>>, es: seq<Pair>, k: Key)
    requires Complete(h, a, cs, es)
    ensures k in HashKeys(a) <==> k in KeysOf(es)
  {
    if k in HashKeys(a) {
      var s :| 0 <= s < |a| && a[s].key == k;
      var i :| 0 <= i < |es| && es[i] == Pair(a[s].key, a[s].value);
      assert es[i].key == k;
    }
    if k in KeysOf(es) {
      var i :| 0 <= i < |es| && es[i].key == k;
      assert Has(a, es[i].key);
      var s :| 0 <= s < |a| && a[s].Node? && a[s].key == k;
      assert HashKeys(a)[s] == k;
    }
  }

  lemma {:induction false} ArrayKeysExact(cells: Cells, i: nat)
    requires i <= |cells|
    ensures var ks := ArrayKeys(cells, i);
      && Once(ks)
      && (forall k :: k in ks <==> k.IntKey? && i < k.i <= |cells| && cells[k.i - 1].Some?)
    decreases |cells| - i
  {
    if i < |cells| {
      ArrayKeysExact(cells, i + 1);
      var ks, rest := ArrayKeys(cells, i), ArrayKeys(cells, i + 1);
      assert ks == (if cells[i].Some? then [IntKey(i + 1)] else []) + rest;
      forall k ensures k in ks <==> k.IntKey? && i < k.i <= |cells| && cells[k.i - 1].Some? {
        assert k in ks <==> k in rest || (cells[i].Some? && k == IntKey(i + 1));
        assert k.IntKey? ==> (k == IntKey(i + 1) <==> k.i == i + 1);
      }
      forall j, l | 0 <= j < l < |ks| ensures ks[j] != ks[l] {
        if cells[i].Some? {
          assert ks[l] == rest[l - 1] && rest[l - 1] in rest;
          if j > 0 { assert ks[j] == rest[j - 1]; }
        }
      }
    }
  }

  // ------------------------------------------------------------- exact iteration

  /** A key as `lnextkey` hands it out. */
  function Back(k: Key): LuaKey
  {
    match k
    case IntKey(i) => LInt(i)
    case StrKey(s) => LStr(s)
  }

  ghost predicate HasKey(es: seq<Entry>, k: LuaKey)
  {
    exists i :: 0 <= i < |es| && es[i].key == k
  }

  /** Going through the table visits the keys of the source, each once. */
  ghost predicate Visits(h: Hash, t: Table, es: seq<Entry>)
  {
    && Full(t.hash)
    && var all := Order(t.cells, t.hash);
    && Once(all)
    && (forall k :: k in all ==> HasKey(es, Back(k)))
    && (forall i :: 0 <= i < |es| ==> Back(Conv(es[i].key)) == es[i].key && Conv(es[i].key) in all)
  }

  /** All keys are strings or integers of 32 bits. */
  ghost predicate Narrow(es: seq<Entry>)
  {
    forall i :: 0 <= i < |es| ==> es[i].key.LStr? || (es[i].key.LInt? && -P31 <= es[i].key.i < P31)
  }

  lemma NarrowKept(k: LuaKey)
    requires k.LInt? || k.LStr?
    ensures Back(Conv(k)) == k <==> k.LStr? || -P31 <= k.i < P31
  {
  }

  /** Iteration is exact if and only if the keys are strings and 32-bit integers. */
  lemma {:induction false} VisitsIff(h: Hash, es: seq<Entry>, n: nat)
    requires LuaTable(es, n) && CountSize(es, n).Some?
    ensures Visits(h, TableOf(h, es, n), es) <==> Narrow(es)
  {
    var t := TableOf(h, es, n);
    if Visits(h, t, es) {
      forall i | 0 <= i < |es| ensures es[i].key.LStr? || (es[i].key.LInt? && -P31 <= es[i].key.i < P31) {
        var k := es[i].key;
        assert Back(Conv(k)) == k;
        if k.LInt? || k.LStr? { NarrowKept(k); }
      }
    }
    if Narrow(es) { NarrowVisits(h, es, n); }
  }

  lemma {:induction false} NarrowFits(es: seq<Entry>, n: nat)
    requires LuaTable(es, n) && Narrow(es)
    ensures Fits(es, n)
  {
    forall i | 0 <= i < |es| ensures Back(Conv(es[i].key)) == es[i].key { NarrowKept(es[i].key); }
  }

  /** A key that is visited is one of the source. */
  lemma {:induction false} VisitedKey(es: seq<Entry>, n: nat, k: Key)
    requires LuaTable(es, n) && Narrow(es)
    requires k in KeysOf(HashPairs(es, n)) || (InCells(k, n) && CellsOf(es, n)[k.i - 1].Some?)
    ensures HasKey(es, Back(k))
  {
    var ps := HashPairs(es, n);
    PairsFrom(es, n);
    if k in KeysOf(ps) {
      var j :| 0 <= j < |ps| && ps[j].key == k;
      assert Source(es, n, ps[j]);
      var i :| 0 <= i < |es| && IsPair(es[i], n, ps[j]);
      NarrowKept(es[i].key);
      assert es[i].key == Back(k);
    } else {
      NarrowFits(es, n);
      CellExact(es, n, k.i);
      RawGetIs(es, k.i);
    }
  }

  lemma {:induction false} NarrowVisits(h: Hash, es: seq<Entry>, n: nat)
    requires LuaTable(es, n) && CountSize(es, n).Some? && Narrow(es)
    ensures Visits(h, TableOf(h, es, n), es)
  {
    var t, ps := TableOf(h, es, n), HashPairs(es, n);
    NarrowFits(es, n);
    var cs := FitsComplete(h, es, n);
    PairsFrom(es, n);
    forall i | 0 <= i < |ps| ensures !InCells(ps[i].key, |t.cells|) { assert Source(es, n, ps[i]); }
    OrderExact(h, t.cells, t.hash, cs, ps);
    var all := Order(t.cells, t.hash);
    forall k | k in all ensures HasKey(es, Back(k)) { VisitedKey(es, n, k); }
    forall i | 0 <= i < |es| ensures Back(Conv(es[i].key)) == es[i].key && Conv(es[i].key) in all {
      var k := es[i].key;
      NarrowKept(k);
      if InCells(Conv(k), n) {
        CellExact(es, n, k.i);
        RawGetIs(es, k.i);
      } else {
        assert Pair(Conv(k), es[i].value) in ps;
        var j :| 0 <= j < |ps| && ps[j] == Pair(Conv(k), es[i].value);
        assert ps[j].key in KeysOf(ps);
      }
    }
  }
}
