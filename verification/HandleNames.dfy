/** The names of service handles (skynet_handle.c): an array kept sorted by
    name, searched by bisection, that refines a map from names to handles. */
module HandleNames {
  type Name = seq<nat>

  datatype Entry = Entry(name: Name, handle: nat)

  /** `strcmp`: negative, zero or positive. */
  function Cmp(a: Name, b: Name): int
  {
    if a == [] && b == [] then 0
    else if a == [] then -1
    else if b == [] then 1
    else if a[0] != b[0] then a[0] - b[0]
    else Cmp(a[1..], b[1..])
  }

  predicate Less(a: Name, b: Name) { Cmp(a, b) < 0 }

  lemma {:induction false} CmpEqual(a: Name, b: Name)
    ensures Cmp(a, b) == 0 <==> a == b
    decreases |a|
  {
    if a != [] && b != [] && a[0] == b[0] {
      CmpEqual(a[1..], b[1..]);
      assert a == [a[0]] + a[1..] && b == [b[0]] + b[1..];
    }
  }

  lemma {:induction false} CmpFlip(a: Name, b: Name)
    ensures Cmp(b, a) == -Cmp(a, b)
    decreases |a|
  {
    if a != [] && b != [] && a[0] == b[0] { CmpFlip(a[1..], b[1..]); }
  }

  lemma {:induction false} LessTrans(a: Name, b: Name, c: Name)
    requires Less(a, b) && Less(b, c)
    ensures Less(a, c)
    decreases |a|
  {
    if a != [] && b != [] && c != [] && a[0] == b[0] == c[0] { LessTrans(a[1..], b[1..], c[1..]); }
  }

  /** Strictly sorted by name. */
  ghost predicate Sorted(s: seq<Entry>)
  {
    forall i, j :: 0 <= i < j < |s| ==> Less(s[i].name, s[j].name)
  }

  /** The entries are the pairs of a map. */
  ghost predicate Refines(s: seq<Entry>, m: map<Name, nat>)
  {
    && (forall i :: 0 <= i < |s| ==> s[i].name in m && m[s[i].name] == s[i].handle)
    && (forall n :: n in m ==> Entry(n, m[n]) in s)
  }

  /** All names before `p` are less, all from `p` on are greater. */
  ghost predicate Splits(s: seq<Entry>, p: int, n: Name)
  {
    && 0 <= p <= |s|
    && (forall i :: 0 <= i < p ==> Less(s[i].name, n))
    && (forall i :: p <= i < |s| ==> Less(n, s[i].name))
  }

  lemma {:induction false} NotThere(s: seq<Entry>, m: map<Name, nat>, p: int, n: Name)
    requires Splits(s, p, n) && Refines(s, m)
    ensures n !in m
  {
    CmpEqual(n, n);
    forall e | e in s ensures e.name != n {
      var i :| 0 <= i < |s| && s[i] == e;
    }
    forall x | x in m ensures x != n { assert Entry(x, m[x]) in s; }
  }

  /** A table with one entry more. */
  ghost predicate Inserted(s: seq<Entry>, p: int, e: Entry, s': seq<Entry>)
  {
    && 0 <= p <= |s| && |s'| == |s| + 1
    && forall i {:trigger s'[i]} :: 0 <= i < |s'| ==> s'[i] == if i < p then s[i] else if i == p then e else s[i - 1]
  }

  lemma {:induction false} InsertSorted(s: seq<Entry>, p: int, e: Entry, s': seq<Entry>)
    requires Sorted(s) && Splits(s, p, e.name) && Inserted(s, p, e, s')
    ensures Sorted(s')
  {
    forall i, j | 0 <= i < j < |s'| ensures Less(s'[i].name, s'[j].name) {
      if i < p < j { LessTrans(s[i].name, e.name, s[j - 1].name); }
    }
  }

  lemma {:induction false} InsertRefines(s: seq<Entry>, m: map<Name, nat>, p: int, e: Entry, s': seq<Entry>)
    requires Refines(s, m) && e.name !in m && Inserted(s, p, e, s')
    ensures Refines(s', m[e.name := e.handle])
  {
    var m' := m[e.name := e.handle];
    forall x | x in m' ensures Entry(x, m'[x]) in s' {
      if x == e.name { assert s'[p] == e; }
      else {
        var i :| 0 <= i < |s| && s[i] == Entry(x, m[x]);
        assert s'[if i < p then i else i + 1] == s[i];
      }
    }
  }

  ghost predicate Below(s: seq<Entry>, p: int, n: Name)
  {
    forall i :: 0 <= i < p && i < |s| ==> Less(s[i].name, n)
  }

  ghost predicate Above(s: seq<Entry>, p: int, n: Name)
  {
    forall i :: p < i < |s| && 0 <= i ==> Less(n, s[i].name)
  }

  /** One comparison decides half of a sorted table. */
  lemma {:induction false} Bisects(s: seq<Entry>, mid: nat, n: Name)
    requires Sorted(s) && mid < |s| && Cmp(s[mid].name, n) != 0
    ensures if Cmp(s[mid].name, n) < 0 then Below(s, mid + 1, n) else Above(s, mid - 1, n)
  {
    CmpFlip(s[mid].name, n);
    if Cmp(s[mid].name, n) < 0 {
      forall i | 0 <= i < mid + 1 ensures Less(s[i].name, n) { if i < mid { LessTrans(s[i].name, s[mid].name, n); } }
    } else {
      forall i | mid - 1 < i < |s| ensures Less(n, s[i].name) { if i > mid { LessTrans(n, s[mid].name, s[i].name); } }
    }
  }

  /** Entries whose handle is not `h`, in order. */
  function Without(s: seq<Entry>, h: nat): (r: seq<Entry>)
    ensures |r| <= |s|
  {
    if s == [] then [] else
    var last := s[|s| - 1];
    Without(s[..|s| - 1], h) + if last.handle == h then [] else [last]
  }

  lemma {:induction false} WithoutSnoc(e: seq<Entry>, i: nat, h: nat)
    requires i < |e|
    ensures Without(e[..i + 1], h) == Without(e[..i], h) + if e[i].handle == h then [] else [e[i]]
  {
    assert e[..i + 1][..i] == e[..i];
  }

  lemma {:induction false} WithoutIn(s: seq<Entry>, h: nat)
    ensures forall e :: e in Without(s, h) <==> e in s && e.handle != h
    decreases |s|
  {
    if s != [] {
      var last := s[|s| - 1];
      WithoutIn(s[..|s| - 1], h);
      assert s == s[..|s| - 1] + [last];
    }
  }

  lemma {:induction false} WithoutSorted(s: seq<Entry>, h: nat)
    requires Sorted(s)
    ensures Sorted(Without(s, h))
    decreases |s|
  {
    if s != [] {
      var last, front := s[|s| - 1], s[..|s| - 1];
      WithoutSorted(front, h);
      WithoutIn(front, h);
      var w := Without(front, h);
      forall i | 0 <= i < |w| ensures Less(w[i].name, last.name) {
        assert w[i] in w;
        var j :| 0 <= j < |front| && front[j] == w[i];
        assert s[j] == w[i];
      }
    }
  }

  lemma {:induction false} WithoutRefines(s: seq<Entry>, m: map<Name, nat>, h: nat)
    requires Sorted(s) && Refines(s, m)
    ensures Refines(Without(s, h), map n | n in m && m[n] != h :: m[n])
  {
    var r, m' := Without(s, h), map n | n in m && m[n] != h :: m[n];
    WithoutIn(s, h);
    forall i | 0 <= i < |r| ensures r[i].name in m' && m'[r[i].name] == r[i].handle {
      assert r[i] in r;
      var j :| 0 <= j < |s| && s[j] == r[i];
    }
  }

  class NameTable {
    var name: array<Entry>
    var name_count: nat
    ghost var names: map<Name, nat>

    ghost function Entries(): seq<Entry>
      requires name_count <= name.Length
      reads this, name
    {
      name[..name_count]
    }

    ghost predicate Valid()
      reads this, name
    {
      name_count <= name.Length && name.Length > 0 && Sorted(Entries()) && Refines(Entries(), names)
    }

    constructor ()
      ensures Valid() && names == map[] && fresh(name)
    {
      name := new Entry[2](_ => Entry([], 0));
      name_count, names := 0, map[];
    }

    /** The bisection of `skynet_handle_findname` and `_insert_name`. */
    method Search(n: Name) returns (found: bool, begin: nat)
      requires Valid()
      ensures found ==> begin < name_count && name[begin].name == n && n in names && names[n] == name[begin].handle
      ensures !found ==> Splits(Entries(), begin, n) && n !in names
    {
      begin := 0;
      var end := name_count - 1;
      ghost var e := Entries();
      while begin <= end
        invariant 0 <= begin <= end + 1 <= name_count
        invariant Below(e, begin, n) && Above(e, end, n)
        decreases end - begin
      {
        var mid := (begin + end) / 2;
        var c := Cmp(name[mid].name, n);
        assert e[mid] == name[mid];
        CmpEqual(e[mid].name, n);
        if c == 0 { return true, mid; }
        Bisects(e, mid, n);
        if c < 0 { begin := mid + 1; } else { end := mid - 1; }
      }
      found := false;
      NotThere(e, names, begin, n);
    }

    /** `skynet_handle_findname`: zero when there is no such name. */
    method FindName(n: Name) returns (handle: nat)
      requires Valid()
      ensures handle == if n in names then names[n] else 0
    {
      var found, mid := Search(n);
      handle := if found then name[mid].handle else 0;
    }

    /** A table of twice the size with a gap. */
    method Grow(before: nat) returns (a: array<Entry>)
      requires name_count <= name.Length && name.Length > 0 && before <= name_count
      ensures fresh(a) && a.Length == 2 * name.Length
      ensures (forall j :: 0 <= j < before ==> a[j] == name[j]) && forall j :: before < j <= name_count ==>
        a[j] == name[j - 1]
    {
      a := new Entry[name.Length * 2](_ => Entry([], 0));
      for i := 0 to before
        invariant forall j :: 0 <= j < i ==> a[j] == name[j]
      {
        a[i] := name[i];
      }
      for i := before to name_count
        invariant forall j :: 0 <= j < before ==> a[j] == name[j]
        invariant forall j :: before < j <= i ==> a[j] == name[j - 1]
      {
        a[i + 1] := name[i];
      }
    }

    /** A gap in the table itself. */
    method ShiftUp(before: nat)
      requires name_count < name.Length && before <= name_count
      modifies name
      ensures forall j :: 0 <= j < before ==> name[j] == old(name[j])
      ensures forall j :: before < j <= name_count ==> name[j] == old(name[j - 1])
    {
      var i := name_count;
      while i > before
        invariant before <= i <= name_count
        invariant forall j :: 0 <= j < i ==> name[j] == old(name[j])
        invariant forall j :: i < j <= name_count ==> name[j] == old(name[j - 1])
      {
        name[i] := name[i - 1];
        i := i - 1;
      }
    }

    /** `_insert_name_before` */
    method InsertBefore(n: Name, handle: nat, before: nat)
      requires name_count <= name.Length && name.Length > 0 && before <= name_count
      modifies this, name
      ensures name_count == old(name_count) + 1 <= name.Length && names == old(names) &&
        (name == old(name) || fresh(name))
      ensures Inserted(old(Entries()), before, Entry(n, handle), Entries())
    {
      if name_count >= name.Length {
        name := Grow(before);
      } else {
        ShiftUp(before);
      }
      name[before] := Entry(n, handle);
      name_count := name_count + 1;
    }

    /** `skynet_handle_namehandle`: refused when the name is taken. */
    method NameHandle(n: Name, handle: nat) returns (ok: bool)
      requires Valid()
      modifies this, name
      ensures Valid() && (name == old(name) || fresh(name))
      ensures ok == (n !in old(names)) && names == if ok then old(names)[n := handle] else old(names)
    {
      var found, begin := Search(n);
      if found { return false; }
      InsertBefore(n, handle, begin);
      InsertSorted(old(Entries()), begin, Entry(n, handle), Entries());
      InsertRefines(old(Entries()), names, begin, Entry(n, handle), Entries());
      names := names[n := handle];
      ok := true;
    }

    /** Compacts the table. */
    method Compact(handle: nat) returns (j: nat)
      requires name_count <= name.Length
      modifies name
      ensures j <= name_count && name[..j] == Without(old(Entries()), handle)
    {
      ghost var e := Entries();
      var i := 0;
      j := 0;
      while i < name_count
        invariant 0 <= j <= i <= name_count && name[..j] == Without(e[..i], handle)
        invariant forall k :: i <= k < name_count ==> name[k] == e[k]
      {
        WithoutSnoc(e, i, handle);
        if name[i].handle != handle {
          if i != j { name[j] := name[i]; }
          j := j + 1;
        }
        i := i + 1;
      }
      assert e[..i] == e;
    }

    /** The loop of `skynet_handle_retire` over the names. */
    method Forget(handle: nat)
      requires Valid()
      modifies this, name
      ensures Valid() && name == old(name)
      ensures names == map n | n in old(names) && old(names)[n] != handle :: old(names)[n]
    {
      ghost var e := Entries();
      WithoutSorted(e, handle);
      WithoutRefines(e, names, handle);
      var j := Compact(handle);
      name_count := j;
      names := map n | n in names && names[n] != handle :: names[n];
    }
  }
}
