/** How sharp the analyses of lpcode.c are: the words a pattern stands for when
    choices are tried in any order and predicates are taken to hold.  Every match
    is such a word; `fixedlen` and `getfirst` say of them exactly what is so. */
module LpegLanguage {
  import opened LpegTree

  type Word = seq<Byte>

  /** The words of a tree, calls followed to depth `d`. */
  ghost predicate Lang(g: Grammar, t: Tree, w: Word, d: nat)
    decreases d, t, |w|
  {
    match t
    case TChar(c) => w == [c]
    case TSet(cs) => |w| == 1 && w[0] in cs
    case TAny => |w| == 1
    case TTrue => w == []
    case TFalse => false
    case TRep(p) =>
      w == [] || exists k :: 0 < k <= |w| && Lang(g, p, w[..k], d) && Lang(g, t, w[k..], d)
    case TSeq(p1, p2) => exists k :: 0 <= k <= |w| && Lang(g, p1, w[..k], d) && Lang(g, p2, w[k..], d)
    case TChoice(p1, p2) => Lang(g, p1, w, d) || Lang(g, p2, w, d)
    case TNot(_) => w == []
    case TAnd(_) => w == []
    case TBehind(_, _) => w == []
    case TCall(r) => d > 0 && r < |g| && Lang(g, g[r], w, d - 1)
    case TGrammar(rs) => |rs| > 0 && Lang(rs, rs[0], w, d)
  }

  /** No call is nested deeper than `d`. */
  predicate Shallow(g: Grammar, t: Tree, d: nat)
    decreases d, t
  {
    match t
    case TRep(p) => Shallow(g, p, d)
    case TSeq(p1, p2) => Shallow(g, p1, d) && Shallow(g, p2, d)
    case TChoice(p1, p2) => Shallow(g, p1, d) && Shallow(g, p2, d)
    case TCall(r) => d > 0 && r < |g| && Shallow(g, g[r], d - 1)
    case TGrammar(rs) => |rs| > 0 && Shallow(rs, rs[0], d)
    case _ => true
  }

  /** ... and nothing in the tree is without words or repeats nothing. */
  predicate Proper(g: Grammar, t: Tree, d: nat)
    decreases d, t
  {
    match t
    case TFalse => false
    case TSet(cs) => cs != {}
    case TRep(p) => Proper(g, p, d) && !Nullable(g, p, d)
    case TSeq(p1, p2) => Proper(g, p1, d) && Proper(g, p2, d)
    case TChoice(p1, p2) => Proper(g, p1, d) && Proper(g, p2, d)
    case TCall(r) => d > 0 && r < |g| && Proper(g, g[r], d - 1)
    case TGrammar(rs) => |rs| > 0 && Proper(rs, rs[0], d)
    case _ => true
  }

  lemma {:induction false} ProperShallow(g: Grammar, t: Tree, d: nat)
    requires Proper(g, t, d)
    ensures Shallow(g, t, d)
    decreases d, t
  {
    match t
    case TRep(p) => ProperShallow(g, p, d);
    case TSeq(p1, p2) => ProperShallow(g, p1, d); ProperShallow(g, p2, d);
    case TChoice(p1, p2) => ProperShallow(g, p1, d); ProperShallow(g, p2, d);
    case TCall(r) => ProperShallow(g, g[r], d - 1);
    case TGrammar(rs) => ProperShallow(rs, rs[0], d);
    case _ =>
  }

  // ------------------------------------------------------------ building words

  lemma {:induction false} SeqWord(g: Grammar, p1: Tree, p2: Tree, u: Word, v: Word, d: nat)
    requires Lang(g, p1, u, d) && Lang(g, p2, v, d)
    ensures Lang(g, TSeq(p1, p2), u + v, d)
  {
    var w, k := u + v, |u|;
    assert w[..k] == u && w[k..] == v;
    assert Lang(g, p1, w[..k], d) && Lang(g, p2, w[k..], d);
  }

  lemma {:induction false} RepWord(g: Grammar, p: Tree, u: Word, v: Word, d: nat)
    requires u != [] && Lang(g, p, u, d) && Lang(g, TRep(p), v, d)
    ensures Lang(g, TRep(p), u + v, d)
  {
    var w, k := u + v, |u|;
    assert w[..k] == u && w[k..] == v;
    assert Lang(g, p, w[..k], d) && Lang(g, TRep(p), w[k..], d);
  }

  lemma {:induction false} Joined(s: seq<Byte>, i: nat, k: nat, j: nat)
    requires i <= k <= j <= |s|
    ensures s[i..k] + s[k..j] == s[i..j]
  {
  }

  /** What a pattern matches is one of its words. */
  lemma {:induction false} MatchesWord(g: Grammar, t: Tree, s: seq<Byte>, i: nat, f: nat, d: nat)
    requires i <= |s| && Peg(g, t, s, i, f).Ok? && Shallow(g, t, d)
    ensures Lang(g, t, s[i..Peg(g, t, s, i, f).pos], d)
    decreases f
  {
    var j := Peg(g, t, s, i, f).pos;
    match t
    case TRep(p) =>
      var r := Peg(g, p, s, i, f - 1);
      if r.Ok? {
        MatchesWord(g, t, s, r.pos, f - 1, d);
        if r.pos > i {
          MatchesWord(g, p, s, i, f - 1, d);
          RepWord(g, p, s[i..r.pos], s[r.pos..j], d);
          Joined(s, i, r.pos, j);
        }
      }
    case TSeq(p1, p2) =>
      var r := Peg(g, p1, s, i, f - 1);
      MatchesWord(g, p1, s, i, f - 1, d);
      MatchesWord(g, p2, s, r.pos, f - 1, d);
      SeqWord(g, p1, p2, s[i..r.pos], s[r.pos..j], d);
      Joined(s, i, r.pos, j);
    case TChoice(p1, p2) =>
      if Peg(g, p1, s, i, f - 1).Ok? { MatchesWord(g, p1, s, i, f - 1, d); }
        else { MatchesWord(g, p2, s, i, f - 1, d); }
    case TCall(r) => MatchesWord(g, g[r], s, i, f - 1, d - 1);
    case TGrammar(rs) => MatchesWord(rs, rs[0], s, i, f - 1, d);
    case _ =>
  }

  lemma {:induction false} SomeWord(g: Grammar, t: Tree, d: nat) returns (w: Word)
    requires Proper(g, t, d)
    ensures Lang(g, t, w, d)
    decreases d, t
  {
    w := [];
    match t {
      case TChar(c) => w := [c];
      case TSet(cs) =>
        var c :| c in cs;
        w := [c];
      case TAny => w := [0];
      case TSeq(p1, p2) =>
        var u := SomeWord(g, p1, d);
        var v := SomeWord(g, p2, d);
        w := u + v;
        SeqWord(g, p1, p2, u, v, d);
      case TChoice(p1, p2) => w := SomeWord(g, p1, d);
      case TCall(r) => w := SomeWord(g, g[r], d - 1);
      case TGrammar(rs) => w := SomeWord(rs, rs[0], d);
      case _ =>
    }
  }

  // ------------------------------------------------------------------ analyses

  /** `nullable`: the empty word is one of the words. */
  lemma {:induction false} NullableWord(g: Grammar, t: Tree, d: nat)
    requires Shallow(g, t, d)
    ensures Nullable(g, t, d) <==> Lang(g, t, [], d)
    decreases d, t
  {
    match t
    case TSeq(p1, p2) =>
      NullableWord(g, p1, d);
      NullableWord(g, p2, d);
      var w: Word := [];
      assert w[..0] == w && w[0..] == w;
    case TChoice(p1, p2) => NullableWord(g, p1, d); NullableWord(g, p2, d);
    case TCall(r) => NullableWord(g, g[r], d - 1);
    case TGrammar(rs) => NullableWord(rs, rs[0], d);
    case _ =>
  }

  lemma {:induction false} FixedWord(g: Grammar, t: Tree, w: Word, d: nat)
    requires FixedLen(g, t, d) >= 0 && Lang(g, t, w, d)
    ensures |w| == FixedLen(g, t, d)
    decreases d, t
  {
    match t
    case TSeq(p1, p2) =>
      var k :| 0 <= k <= |w| && Lang(g, p1, w[..k], d) && Lang(g, p2, w[k..], d);
      FixedWord(g, p1, w[..k], d);
      FixedWord(g, p2, w[k..], d);
    case TChoice(p1, p2) => if Lang(g, p1, w, d) { FixedWord(g, p1, w, d); } else { FixedWord(g, p2, w, d); }
    case TCall(r) => FixedWord(g, g[r], w, d - 1);
    case TGrammar(rs) => FixedWord(rs, rs[0], w, d);
    case _ =>
  }

  lemma {:induction false} TwoLengths(g: Grammar, t: Tree, d: nat) returns (u: Word, w: Word)
    requires FixedLen(g, t, d) < 0 && Proper(g, t, d)
    ensures Lang(g, t, u, d) && Lang(g, t, w, d) && |u| != |w|
    decreases d, t
  {
    u, w := [], [];
    match t {
      case TRep(p) =>
        w := SomeWord(g, p, d);
        ProperShallow(g, p, d);
        NullableWord(g, p, d);
        assert w + [] == w;
        RepWord(g, p, w, [], d);
      case TSeq(p1, p2) => u, w := TwoInSeq(g, p1, p2, t, d);
      case TChoice(p1, p2) =>
        if FixedLen(g, p1, d) < 0 { u, w := TwoLengths(g, p1, d); }
        else if FixedLen(g, p2, d) < 0 { u, w := TwoLengths(g, p2, d); }
        else {
          u := SomeWord(g, p1, d);
          w := SomeWord(g, p2, d);
          FixedWord(g, p1, u, d);
          FixedWord(g, p2, w, d);
        }
      case TCall(r) => u, w := TwoLengths(g, g[r], d - 1);
      case TGrammar(rs) => u, w := TwoLengths(rs, rs[0], d);
    }
  }

  lemma {:induction false} TwoInSeq(g: Grammar, p1: Tree, p2: Tree, t: Tree, d: nat) returns (u: Word, w: Word)
    requires t == TSeq(p1, p2) && FixedLen(g, t, d) < 0 && Proper(g, t, d)
    ensures Lang(g, t, u, d) && Lang(g, t, w, d) && |u| != |w|
    decreases d, t, 0
  {
    if FixedLen(g, p1, d) < 0 {
      var u1, w1 := TwoLengths(g, p1, d);
      var v := SomeWord(g, p2, d);
      SeqWord(g, p1, p2, u1, v, d);
      SeqWord(g, p1, p2, w1, v, d);
      u, w := u1 + v, w1 + v;
    } else {
      var u2, w2 := TwoLengths(g, p2, d);
      var v := SomeWord(g, p1, d);
      SeqWord(g, p1, p2, v, u2, d);
      SeqWord(g, p1, p2, v, w2, d);
      u, w := v + u2, v + w2;
    }
  }

  /** `fixedlen` gives a length exactly when all words have that length. */
  lemma {:induction false} FixedLenIff(g: Grammar, t: Tree, d: nat, n: nat)
    requires Proper(g, t, d)
    ensures FixedLen(g, t, d) == n <==> forall w :: Lang(g, t, w, d) ==> |w| == n
  {
    if FixedLen(g, t, d) >= 0 {
      forall w | Lang(g, t, w, d) ensures |w| == FixedLen(g, t, d) { FixedWord(g, t, w, d); }
      var w := SomeWord(g, t, d);
      assert Lang(g, t, w, d);
    } else {
      var u, w := TwoLengths(g, t, d);
      assert Lang(g, t, u, d) && Lang(g, t, w, d);
    }
  }

  // ---------------------------------------------------------------- first sets

  /** A word, or what follows it if it is empty, begins with `c`. */
  predicate Begins(w: Word, c: Byte, follow: Charset)
  {
    if w == [] then c in follow else w[0] == c
  }

  ghost predicate CanBegin(g: Grammar, t: Tree, c: Byte, follow: Charset, d: nat)
  {
    exists w :: Lang(g, t, w, d) && Begins(w, c, follow)
  }

  /** No predicate that looks at the next character by itself. */
  predicate Unlooking(g: Grammar, t: Tree, d: nat)
    decreases d, t
  {
    match t
    case TAnd(_) => false
    case TNot(p) => !IsCharset(p)
    case TRep(p) => Unlooking(g, p, d)
    case TSeq(p1, p2) => Unlooking(g, p1, d) && Unlooking(g, p2, d)
    case TChoice(p1, p2) => Unlooking(g, p1, d) && Unlooking(g, p2, d)
    case TCall(r) => d > 0 && r < |g| && Unlooking(g, g[r], d - 1)
    case TGrammar(rs) => |rs| > 0 && Unlooking(rs, rs[0], d)
    case _ => true
  }

  /** `getfirst` holds exactly the characters a word can begin with, and its flag
      says exactly whether the empty word is one. */
  lemma {:induction false} FirstIff(g: Grammar, t: Tree, follow: Charset, c: Byte, d: nat)
    requires Proper(g, t, d) && Unlooking(g, t, d)
    ensures c in GetFirst(g, t, follow, d).cs <==> CanBegin(g, t, c, follow, d)
    ensures GetFirst(g, t, follow, d).empty <==> Lang(g, t, [], d)
    decreases d, t
  {
    match t
    case TChoice(p1, p2) =>
      FirstIff(g, p1, follow, c, d);
      FirstIff(g, p2, follow, c, d);
      BeginChoice(g, p1, p2, c, follow, d);
    case TSeq(p1, p2) =>
      ProperShallow(g, p1, d);
      NullableWord(g, p1, d);
      ProperShallow(g, t, d);
      NullableWord(g, t, d);
      if Nullable(g, p1, d) {
        FirstIff(g, p2, follow, c, d);
        FirstIff(g, p1, GetFirst(g, p2, follow, d).cs, c, d);
        ProperShallow(g, p2, d);
        NullableWord(g, p2, d);
        BeginSeq(g, p1, p2, c, follow, GetFirst(g, p2, follow, d).cs, d);
      } else {
        FirstIff(g, p1, FULL, c, d);
        BeginSeqHard(g, p1, p2, c, follow, d);
      }
    case TRep(p) =>
      FirstIff(g, p, follow, c, d);
      ProperShallow(g, p, d);
      NullableWord(g, p, d);
      BeginRep(g, p, c, follow, d);
    case TCall(r) =>
      FirstIff(g, g[r], follow, c, d - 1);
      if CanBegin(g, g[r], c, follow, d - 1) {
        var w :| Lang(g, g[r], w, d - 1) && Begins(w, c, follow);
        assert Lang(g, t, w, d);
      }
    case TGrammar(rs) =>
      FirstIff(rs, rs[0], follow, c, d);
      if CanBegin(rs, rs[0], c, follow, d) {
        var w :| Lang(rs, rs[0], w, d) && Begins(w, c, follow);
        assert Lang(g, t, w, d);
      }
    case _ => BeginLeaf(g, t, c, follow, d);
  }

  lemma {:induction false} BeginLeaf(g: Grammar, t: Tree, c: Byte, follow: Charset, d: nat)
    requires IsCharset(t) || t.TTrue? || t.TBehind? || (t.TNot? && !IsCharset(t.body))
    ensures c in GetFirst(g, t, follow, d).cs <==> CanBegin(g, t, c, follow, d)
  {
    var w: Word := if IsCharset(t) then [c] else [];
    if c in GetFirst(g, t, follow, d).cs { assert Lang(g, t, w, d) && Begins(w, c, follow); }
    if CanBegin(g, t, c, follow, d) {
      var v :| Lang(g, t, v, d) && Begins(v, c, follow);
      assert v == w;
    }
  }

  lemma {:induction false} BeginChoice(g: Grammar, p1: Tree, p2: Tree, c: Byte, follow: Charset, d: nat)
    ensures CanBegin(g, TChoice(p1, p2), c, follow, d) <==>
      CanBegin(g, p1, c, follow, d) || CanBegin(g, p2, c, follow, d)
  {
    var t := TChoice(p1, p2);
    if CanBegin(g, p1, c, follow, d) {
      var w :| Lang(g, p1, w, d) && Begins(w, c, follow);
      assert Lang(g, t, w, d);
    }
    if CanBegin(g, p2, c, follow, d) {
      var w :| Lang(g, p2, w, d) && Begins(w, c, follow);
      assert Lang(g, t, w, d);
    }
  }

  /** A sequence begins as its first part does, followed by the second. */
  lemma {:induction false} BeginSeq(g: Grammar, p1: Tree, p2: Tree, c: Byte, follow: Charset, mid: Charset, d: nat)
    requires Proper(g, p2, d) && (c in mid <==> CanBegin(g, p2, c, follow, d))
    ensures CanBegin(g, TSeq(p1, p2), c, follow, d) <==> CanBegin(g, p1, c, mid, d)
  {
    var t := TSeq(p1, p2);
    if CanBegin(g, t, c, follow, d) {
      var w :| Lang(g, t, w, d) && Begins(w, c, follow);
      var k :| 0 <= k <= |w| && Lang(g, p1, w[..k], d) && Lang(g, p2, w[k..], d);
      if k == 0 {
        assert w[k..] == w;
        assert Lang(g, p2, w, d) && Begins(w, c, follow);
      }
      assert Begins(w[..k], c, mid);
    }
    if CanBegin(g, p1, c, mid, d) {
      var u :| Lang(g, p1, u, d) && Begins(u, c, mid);
      var v := SomeWord(g, p2, d);
      if u == [] { v :| Lang(g, p2, v, d) && Begins(v, c, follow); }
      SeqWord(g, p1, p2, u, v, d);
      assert Begins(u + v, c, follow);
    }
  }

  /** ... and without the second where the first is never empty. */
  lemma {:induction false} BeginSeqHard(g: Grammar, p1: Tree, p2: Tree, c: Byte, follow: Charset, d: nat)
    requires Proper(g, p2, d) && !Lang(g, p1, [], d)
    ensures CanBegin(g, TSeq(p1, p2), c, follow, d) <==> CanBegin(g, p1, c, FULL, d)
  {
    var mid := if CanBegin(g, p2, c, follow, d) then {c} else {};
    BeginSeq(g, p1, p2, c, follow, mid, d);
    if CanBegin(g, p1, c, mid, d) {
      var u :| Lang(g, p1, u, d) && Begins(u, c, mid);
      assert Begins(u, c, FULL);
    }
    if CanBegin(g, p1, c, FULL, d) {
      var u :| Lang(g, p1, u, d) && Begins(u, c, FULL);
      assert Begins(u, c, mid);
    }
  }

  lemma {:induction false} BeginRep(g: Grammar, p: Tree, c: Byte, follow: Charset, d: nat)
    requires !Lang(g, p, [], d)
    ensures CanBegin(g, TRep(p), c, follow, d) <==> c in follow || CanBegin(g, p, c, follow, d)
  {
    var t := TRep(p);
    var none: Word := [];
    assert Lang(g, t, none, d);
    if c in follow { assert Begins(none, c, follow); }
    if CanBegin(g, t, c, follow, d) {
      var w :| Lang(g, t, w, d) && Begins(w, c, follow);
      if w != [] {
        var k :| 0 < k <= |w| && Lang(g, p, w[..k], d) && Lang(g, t, w[k..], d);
        assert Begins(w[..k], c, follow);
      }
    }
    if CanBegin(g, p, c, follow, d) {
      var u :| Lang(g, p, u, d) && Begins(u, c, follow);
      RepWord(g, p, u, none, d);
      assert u + none == u;
    }
  }
}
