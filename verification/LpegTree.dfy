/** LPeg pattern trees, their meaning as parsing expressions, and the static
    analyses of lpcode.c together with the proofs that they are sound.

    A grammar is a sequence of rule bodies; `TCall(r)` calls rule `r` of the
    innermost enclosing grammar.  The meaning `Peg` is a big-step evaluator
    with fuel: `Out` means "not enough fuel", and every other answer is stable
    under more fuel.  The analyses follow calls in the C code; here each takes
    a bound `d` on the depth of nested calls and gives the conservative answer
    when the bound is used up, so soundness holds for every bound. */
module LpegTree {

  type Byte = b: int | 0 <= b < 256
  type Charset = set<Byte>
  type Grammar = seq<Tree>

  const FULL: Charset := set b: Byte | 0 <= b < 256

  const MAXBEHIND: nat := 255

  datatype Tree =
    | TChar(c: Byte)
    | TSet(cs: Charset)
    | TAny
    | TTrue
    | TFalse
    | TRep(body: Tree)
    | TSeq(p1: Tree, p2: Tree)
    | TChoice(p1: Tree, p2: Tree)
    | TNot(body: Tree)
    | TAnd(body: Tree)
    | TBehind(n: nat, body: Tree)
    | TCall(rule: nat)
    | TGrammar(rules: Grammar)

  datatype Res = Out | Fail | Ok(pos: nat)

  /** Meaning of a pattern at position `i` of subject `s`, in grammar `g`. */
  function Peg(g: Grammar, t: Tree, s: seq<Byte>, i: nat, f: nat): (r: Res)
    requires i <= |s|
    ensures r.Ok? ==> i <= r.pos <= |s|
    decreases f
  {
    if f == 0 then Out else
    match t
    case TChar(c) => if i < |s| && s[i] == c then Ok(i + 1) else Fail
    case TSet(cs) => if i < |s| && s[i] in cs then Ok(i + 1) else Fail
    case TAny => if i < |s| then Ok(i + 1) else Fail
    case TTrue => Ok(i)
    case TFalse => Fail
    case TRep(p) =>
      (match Peg(g, p, s, i, f - 1)
       case Out => Out
       case Fail => Ok(i)
       case Ok(j) => Peg(g, t, s, j, f - 1))
    case TSeq(p1, p2) =>
      (match Peg(g, p1, s, i, f - 1)
       case Out => Out
       case Fail => Fail
       case Ok(j) => Peg(g, p2, s, j, f - 1))
    case TChoice(p1, p2) =>
      (match Peg(g, p1, s, i, f - 1)
       case Out => Out
       case Fail => Peg(g, p2, s, i, f - 1)
       case Ok(j) => Ok(j))
    case TNot(p) =>
      (match Peg(g, p, s, i, f - 1)
       case Out => Out
       case Fail => Ok(i)
       case Ok(_) => Fail)
    case TAnd(p) =>
      (match Peg(g, p, s, i, f - 1)
       case Out => Out
       case Fail => Fail
       case Ok(_) => Ok(i))
    case TBehind(n, p) =>
      if n > i then Fail else
      (match Peg(g, p, s, i - n, f - 1)
       case Out => Out
       case Fail => Fail
       case Ok(j) => if j == i then Ok(i) else Fail)
    case TCall(r) => if r < |g| then Peg(g, g[r], s, i, f - 1) else Fail
    case TGrammar(rs) => if |rs| > 0 then Peg(rs, rs[0], s, i, f - 1) else Fail
  }

  /** An answer, once reached, does not depend on the fuel. */
  lemma {:induction false} PegStable(g: Grammar, t: Tree, s: seq<Byte>, i: nat, f: nat, f': nat)
    requires i <= |s| && f <= f' && Peg(g, t, s, i, f) != Out
    ensures Peg(g, t, s, i, f') == Peg(g, t, s, i, f)
    decreases f
  {
    match t
    case TRep(p) =>
      PegStable(g, p, s, i, f - 1, f' - 1);
      var r := Peg(g, p, s, i, f - 1);
      if r.Ok? { PegStable(g, t, s, r.pos, f - 1, f' - 1); }
    case TSeq(p1, p2) =>
      PegStable(g, p1, s, i, f - 1, f' - 1);
      var r := Peg(g, p1, s, i, f - 1);
      if r.Ok? { PegStable(g, p2, s, r.pos, f - 1, f' - 1); }
    case TChoice(p1, p2) =>
      PegStable(g, p1, s, i, f - 1, f' - 1);
      if Peg(g, p1, s, i, f - 1).Fail? { PegStable(g, p2, s, i, f - 1, f' - 1); }
    case TNot(p) => PegStable(g, p, s, i, f - 1, f' - 1);
    case TAnd(p) => PegStable(g, p, s, i, f - 1, f' - 1);
    case TBehind(n, p) => if n <= i { PegStable(g, p, s, i - n, f - 1, f' - 1); }
    case TCall(r) => if r < |g| { PegStable(g, g[r], s, i, f - 1, f' - 1); }
    case TGrammar(rs) => if |rs| > 0 { PegStable(rs, rs[0], s, i, f - 1, f' - 1); }
    case _ =>
  }

  /** `t` evaluates to the definite answer `r` (with some amount of fuel). */
  ghost predicate Matches(g: Grammar, t: Tree, s: seq<Byte>, i: nat, r: Res)
    requires i <= |s|
  {
    r != Out && exists f: nat :: Peg(g, t, s, i, f) == r
  }

  lemma MatchesUnique(g: Grammar, t: Tree, s: seq<Byte>, i: nat, r: Res, r': Res)
    requires i <= |s| && Matches(g, t, s, i, r) && Matches(g, t, s, i, r')
    ensures r == r'
  {
    var f: nat :| Peg(g, t, s, i, f) == r;
    var f': nat :| Peg(g, t, s, i, f') == r';
    if f <= f' { PegStable(g, t, s, i, f, f'); } else { PegStable(g, t, s, i, f', f); }
  }

  // ---------------------------------------------------------------- analyses

  datatype Property = PENullable | PENofail

  /** `checkaux`: may match the empty string / never fails. */
  function CheckAux(g: Grammar, t: Tree, pred: Property, d: nat): bool
    decreases d, t
  {
    match t
    case TChar(_) => false
    case TSet(_) => false
    case TAny => false
    case TFalse => false
    case TRep(_) => true
    case TTrue => true
    case TNot(_) => pred.PENullable?
    case TBehind(_, _) => pred.PENullable?
    case TAnd(p) => pred.PENullable? || CheckAux(g, p, pred, d)
    case TSeq(p1, p2) => CheckAux(g, p1, pred, d) && CheckAux(g, p2, pred, d)
    case TChoice(p1, p2) => CheckAux(g, p2, pred, d) || CheckAux(g, p1, pred, d)
    case TCall(r) =>
      if d == 0 || r >= |g| then pred.PENullable? else CheckAux(g, g[r], pred, d - 1)
    case TGrammar(rs) =>
      if |rs| == 0 then pred.PENullable? else CheckAux(rs, rs[0], pred, d)
  }

  predicate Nullable(g: Grammar, t: Tree, d: nat) { CheckAux(g, t, PENullable, d) }

  predicate NoFail(g: Grammar, t: Tree, d: nat) { CheckAux(g, t, PENofail, d) }

  /** `fixedlen`: number of characters every match consumes, or -1. */
  function FixedLen(g: Grammar, t: Tree, d: nat): (n: int)
    ensures n >= -1
    decreases d, t
  {
    match t
    case TChar(_) => 1
    case TSet(_) => 1
    case TAny => 1
    case TFalse => 0
    case TTrue => 0
    case TNot(_) => 0
    case TAnd(_) => 0
    case TBehind(_, _) => 0
    case TRep(_) => -1
    case TCall(r) => if d == 0 || r >= |g| then -1 else FixedLen(g, g[r], d - 1)
    case TGrammar(rs) => if |rs| == 0 then -1 else FixedLen(rs, rs[0], d)
    case TSeq(p1, p2) =>
      var n1 := FixedLen(g, p1, d);
      if n1 < 0 then -1 else
      var n2 := FixedLen(g, p2, d);
      if n2 < 0 then -1 else n1 + n2
    case TChoice(p1, p2) =>
      var n1 := FixedLen(g, p1, d);
      var n2 := FixedLen(g, p2, d);
      if n1 != n2 || n1 < 0 then -1 else n1
  }

  /** `tocharset`: the set a single-character pattern stands for. */
  predicate IsCharset(t: Tree) { t.TChar? || t.TSet? || t.TAny? }

  function ToCharset(t: Tree): (cs: Charset)
    requires IsCharset(t)
    ensures forall g: Grammar, s: seq<Byte>, i: nat, f: nat :: i <= |s| && f > 0 ==>
      Peg(g, t, s, i, f) == if i < |s| && s[i] in cs then Ok(i + 1) else Fail
  {
    match t
    case TChar(c) => {c}
    case TSet(cs) => cs
    case TAny => FULL
  }

  /** `getfirst`: the first set relative to the set `follow` of what may come
      next; `empty` tells that the pattern may match an empty rest. */
  datatype First = First(cs: Charset, empty: bool)

  function GetFirst(g: Grammar, t: Tree, follow: Charset, d: nat): First
    decreases d, t
  {
    match t
    case TChar(_) => First(ToCharset(t), false)
    case TSet(_) => First(ToCharset(t), false)
    case TAny => First(ToCharset(t), false)
    case TTrue => First(follow, true)
    case TFalse => First({}, false)
    case TChoice(p1, p2) =>
      var f1 := GetFirst(g, p1, follow, d);
      var f2 := GetFirst(g, p2, follow, d);
      First(f1.cs + f2.cs, f1.empty || f2.empty)
    case TSeq(p1, p2) =>
      if !Nullable(g, p1, d) then GetFirst(g, p1, FULL, d)
      else
        var f2 := GetFirst(g, p2, follow, d);
        var f1 := GetFirst(g, p1, f2.cs, d);
        First(f1.cs, f1.empty && f2.empty)
    case TRep(p) => First(GetFirst(g, p, follow, d).cs + follow, true)
    case TCall(r) =>
      if d == 0 || r >= |g| then First(FULL, true) else GetFirst(g, g[r], follow, d - 1)
    case TGrammar(rs) =>
      if |rs| == 0 then First(FULL, true) else GetFirst(rs, rs[0], follow, d)
    case TAnd(p) =>
      var f1 := GetFirst(g, p, follow, d);
      First(f1.cs * follow, f1.empty)
    case TNot(p) =>
      if IsCharset(p) then First(FULL - ToCharset(p), true) else First(follow, true)
    case TBehind(_, _) => First(follow, true)
  }

  /** `headfail`: the pattern can fail only because of the next character. */
  predicate HeadFail(g: Grammar, t: Tree, d: nat)
    decreases d, t
  {
    match t
    case TChar(_) => true
    case TSet(_) => true
    case TAny => true
    case TFalse => true
    case TTrue => false
    case TRep(_) => false
    case TNot(_) => false
    case TBehind(_, _) => false
    case TAnd(p) => HeadFail(g, p, d)
    case TCall(r) => d > 0 && r < |g| && HeadFail(g, g[r], d - 1)
    case TGrammar(rs) => |rs| > 0 && HeadFail(rs, rs[0], d)
    case TSeq(p1, p2) => NoFail(g, p2, d) && HeadFail(g, p1, d)
    case TChoice(p1, p2) => HeadFail(g, p1, d) && HeadFail(g, p2, d)
  }

  /** `needfollow`: code generation for this tree uses a follow set. */
  predicate NeedFollow(t: Tree)
  {
    match t
    case TChoice(_, _) => true
    case TRep(_) => true
    case TSeq(_, p2) => NeedFollow(p2)
    case _ => false
  }

  // --------------------------------------------------------------- soundness

  /** A pattern that is not nullable consumes input whenever it matches. */
  lemma {:induction false} NullableSound(g: Grammar, t: Tree, s: seq<Byte>, i: nat, f: nat, d: nat)
    requires i <= |s| && !Nullable(g, t, d)
    ensures Peg(g, t, s, i, f) != Ok(i)
    decreases f, t
  {
    if f > 0 {
      match t
      case TSeq(p1, p2) =>
        if !Nullable(g, p1, d) {
          NullableSound(g, p1, s, i, f - 1, d);
        } else {
          var r := Peg(g, p1, s, i, f - 1);
          if r.Ok? { NullableSound(g, p2, s, r.pos, f - 1, d); }
        }
      case TChoice(p1, p2) =>
        NullableSound(g, p1, s, i, f - 1, d);
        NullableSound(g, p2, s, i, f - 1, d);
      case TCall(r) => if r < |g| { NullableSound(g, g[r], s, i, f - 1, d - 1); }
      case TGrammar(rs) => if |rs| > 0 { NullableSound(rs, rs[0], s, i, f - 1, d); }
      case _ =>
    }
  }

  /** A `nofail` pattern never fails. */
  lemma {:induction false} NoFailSound(g: Grammar, t: Tree, s: seq<Byte>, i: nat, f: nat, d: nat)
    requires i <= |s| && NoFail(g, t, d)
    ensures Peg(g, t, s, i, f) != Fail
    decreases f, t
  {
    if f > 0 {
      match t
      case TRep(p) =>
        var r := Peg(g, p, s, i, f - 1);
        if r.Ok? { NoFailSound(g, t, s, r.pos, f - 1, d); }
      case TAnd(p) => NoFailSound(g, p, s, i, f - 1, d);
      case TSeq(p1, p2) =>
        NoFailSound(g, p1, s, i, f - 1, d);
        var r := Peg(g, p1, s, i, f - 1);
        if r.Ok? { NoFailSound(g, p2, s, r.pos, f - 1, d); }
      case TChoice(p1, p2) =>
        if NoFail(g, p2, d) { NoFailSound(g, p2, s, i, f - 1, d); }
        else { NoFailSound(g, p1, s, i, f - 1, d); }
      case TCall(r) => NoFailSound(g, g[r], s, i, f - 1, d - 1);
      case TGrammar(rs) => NoFailSound(rs, rs[0], s, i, f - 1, d);
      case _ =>
    }
  }

  /** When `fixedlen` gives a length, every match has exactly that length. */
  lemma {:induction false} FixedLenSound(g: Grammar, t: Tree, s: seq<Byte>, i: nat, f: nat, d: nat)
    requires i <= |s| && FixedLen(g, t, d) >= 0 && Peg(g, t, s, i, f).Ok?
    ensures Peg(g, t, s, i, f).pos == i + FixedLen(g, t, d)
    decreases f, t
  {
    match t
    case TSeq(p1, p2) =>
      FixedLenSound(g, p1, s, i, f - 1, d);
      FixedLenSound(g, p2, s, Peg(g, p1, s, i, f - 1).pos, f - 1, d);
    case TChoice(p1, p2) =>
      if Peg(g, p1, s, i, f - 1).Ok? { FixedLenSound(g, p1, s, i, f - 1, d); }
      else { FixedLenSound(g, p2, s, i, f - 1, d); }
    case TCall(r) => FixedLenSound(g, g[r], s, i, f - 1, d - 1);
    case TGrammar(rs) => FixedLenSound(rs, rs[0], s, i, f - 1, d);
    case _ =>
  }

  /** `getfirst` covers the first character of every match, relative to its
      follow set, and `empty` covers every match of an empty rest. */
  lemma {:induction false} FirstSound(g: Grammar, t: Tree, s: seq<Byte>, i: nat, f: nat, fl: Charset, d: nat)
    requires i <= |s| && Peg(g, t, s, i, f).Ok?
    ensures i < |s| && (Peg(g, t, s, i, f).pos > i || s[i] in fl) ==> s[i] in GetFirst(g, t, fl, d).cs
    ensures i == |s| ==> GetFirst(g, t, fl, d).empty
    decreases f, t
  {
    match t
    case TRep(p) =>
      var r := Peg(g, p, s, i, f - 1);
      if r.Ok? {
        FirstSound(g, p, s, i, f - 1, fl, d);
        if r.pos == i { FirstSound(g, t, s, i, f - 1, fl, d); }
      }
    case TSeq(p1, p2) =>
      var j := Peg(g, p1, s, i, f - 1).pos;
      if !Nullable(g, p1, d) {
        NullableSound(g, p1, s, i, f - 1, d);
        FirstSound(g, p1, s, i, f - 1, FULL, d);
      } else {
        FirstSound(g, p2, s, j, f - 1, fl, d);
        FirstSound(g, p1, s, i, f - 1, GetFirst(g, p2, fl, d).cs, d);
      }
    case TChoice(p1, p2) =>
      if Peg(g, p1, s, i, f - 1).Ok? { FirstSound(g, p1, s, i, f - 1, fl, d); }
      else { FirstSound(g, p2, s, i, f - 1, fl, d); }
    case TAnd(p) => FirstSound(g, p, s, i, f - 1, fl, d);
    case TCall(r) => if d > 0 { FirstSound(g, g[r], s, i, f - 1, fl, d - 1); }
    case TGrammar(rs) => FirstSound(rs, rs[0], s, i, f - 1, fl, d);
    case _ =>
  }

  lemma {:induction false} NoFailFirst(g: Grammar, t: Tree, d: nat)
    requires NoFail(g, t, d)
    ensures Nullable(g, t, d) && GetFirst(g, t, FULL, d) == First(FULL, true)
    decreases d, t
  {
    match t
    case TAnd(p) => NoFailFirst(g, p, d);
    case TSeq(p1, p2) => NoFailFirst(g, p1, d); NoFailFirst(g, p2, d);
    case TChoice(p1, p2) => if NoFail(g, p2, d) { NoFailFirst(g, p2, d); } else { NoFailFirst(g, p1, d); }
    case TCall(r) => NoFailFirst(g, g[r], d - 1);
    case TGrammar(rs) => NoFailFirst(rs, rs[0], d);
    case _ =>
  }

  /** A head-fail pattern fails exactly when the input has ended or the next
      character is outside its first set. */
  lemma {:induction false} HeadFailExact(g: Grammar, t: Tree, s: seq<Byte>, i: nat, f: nat, d: nat)
    requires i <= |s| && HeadFail(g, t, d) && Peg(g, t, s, i, f) != Out
    ensures Peg(g, t, s, i, f).Fail? <==> i == |s| || s[i] !in GetFirst(g, t, FULL, d).cs
    ensures !GetFirst(g, t, FULL, d).empty
  {
    HeadFailEmpty(g, t, d);
    if Peg(g, t, s, i, f).Ok? {
      FirstSound(g, t, s, i, f, FULL, d);
    } else if i < |s| && s[i] in GetFirst(g, t, FULL, d).cs {
      HeadFailOk(g, t, s, i, f, d);
    }
  }

  lemma {:induction false} HeadFailEmpty(g: Grammar, t: Tree, d: nat)
    requires HeadFail(g, t, d)
    ensures forall fl :: !GetFirst(g, t, fl, d).empty
    decreases d, t
  {
    match t
    case TAnd(p) => HeadFailEmpty(g, p, d);
    case TSeq(p1, p2) => HeadFailEmpty(g, p1, d);
    case TChoice(p1, p2) => HeadFailEmpty(g, p1, d); HeadFailEmpty(g, p2, d);
    case TCall(r) => HeadFailEmpty(g, g[r], d - 1);
    case TGrammar(rs) => HeadFailEmpty(rs, rs[0], d);
    case _ =>
  }

  lemma {:induction false} HeadFailOk(g: Grammar, t: Tree, s: seq<Byte>, i: nat, f: nat, d: nat)
    requires i < |s| && HeadFail(g, t, d) && s[i] in GetFirst(g, t, FULL, d).cs
    ensures !Peg(g, t, s, i, f).Fail?
    decreases f, t
  {
    if f > 0 {
      match t
      case TAnd(p) => HeadFailOk(g, p, s, i, f - 1, d);
      case TSeq(p1, p2) =>
        NoFailFirst(g, p2, d);
        HeadFailOk(g, p1, s, i, f - 1, d);
        var r := Peg(g, p1, s, i, f - 1);
        if r.Ok? { NoFailSound(g, p2, s, r.pos, f - 1, d); }
      case TChoice(p1, p2) =>
        if s[i] in GetFirst(g, p1, FULL, d).cs { HeadFailOk(g, p1, s, i, f - 1, d); }
        else { HeadFailOk(g, p2, s, i, f - 1, d); }
      case TCall(r) => HeadFailOk(g, g[r], s, i, f - 1, d - 1);
      case TGrammar(rs) => HeadFailOk(rs, rs[0], s, i, f - 1, d);
      case _ =>
    }
  }
}
