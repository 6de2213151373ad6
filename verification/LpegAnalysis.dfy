/** The static analyses of lpcode.c and their soundness for the meaning of
    trees. */
module LpegAnalysis {
  import opened Wrappers
  import opened LpegTree

  /** The longest distance a pattern may look behind. */
  const MAXBEHIND := 255

  datatype Pred = PEnullable | PEnofail

  /** The charset of a single-character pattern. */
  function ToCharset(t: Tree): Option<Charset> {
    match t
    case TSet(cs) => Some(cs)
    case TChar(c) => Some({c})
    case TAny => Some(Full())
    case _ => None
  }

  function CheckAux(t: Tree, pred: Pred): bool {
    match t
    case TChar(_) => false
    case TSet(_) => false
    case TAny => false
    case TFalse => false
    case TRep(_) => true
    case TTrue => true
    case TNot(_) => pred == PEnullable
    case TBehind(_, _) => pred == PEnullable
    case TAnd(p) => if pred == PEnullable then true else CheckAux(p, pred)
    case TSeq(p, q) => if !CheckAux(p, pred) then false else CheckAux(q, pred)
    case TChoice(p, q) => if CheckAux(q, pred) then true else CheckAux(p, pred)
  }

  predicate Nullable(t: Tree) { CheckAux(t, PEnullable) }

  predicate NoFail(t: Tree) { CheckAux(t, PEnofail) }

  /** Number of characters a success of `t` adds to `len`, or -1 if variable. */
  function FixedLenX(t: Tree, len: int): int {
    match t
    case TChar(_) => len + 1
    case TSet(_) => len + 1
    case TAny => len + 1
    case TFalse => len
    case TTrue => len
    case TNot(_) => len
    case TAnd(_) => len
    case TBehind(_, _) => len
    case TRep(_) => -1
    case TSeq(p, q) =>
      var l := FixedLenX(p, len);
      if l < 0 then -1 else FixedLenX(q, l)
    case TChoice(p, q) =>
      var n1 := FixedLenX(p, len);
      if n1 < 0 then -1
      else
        var n2 := FixedLenX(q, len);
        if n1 == n2 then n1 else -1
  }

  function FixedLen(t: Tree): int { FixedLenX(t, 0) }

  /** The set of characters `t` may start with when `follow` is the set of
      characters that may come after it; `e` is true when the set cannot be used
      for a test because `t` may accept the empty string. */
  datatype First = First(cs: Charset, e: bool)

  function GetFirst(t: Tree, follow: Charset): First {
    match t
    case TChar(_) => First(ToCharset(t).value, false)
    case TSet(_) => First(ToCharset(t).value, false)
    case TAny => First(ToCharset(t).value, false)
    case TTrue => First(follow, true)
    case TFalse => First({}, false)
    case TChoice(p, q) =>
      var f1 := GetFirst(p, follow);
      var f2 := GetFirst(q, follow);
      First(f1.cs + f2.cs, f1.e || f2.e)
    case TSeq(p, q) =>
      if !Nullable(p) then GetFirst(p, Full())
      else
        var f2 := GetFirst(q, follow);
        var f1 := GetFirst(p, f2.cs);
        First(f1.cs, f1.e && f2.e)
    case TRep(p) =>
      var f := GetFirst(p, follow);
      First(f.cs + follow, true)
    case TAnd(p) =>
      var f := GetFirst(p, follow);
      First(f.cs * follow, f.e)
    case TNot(p) =>
      if ToCharset(p).Some? then First(Full() - ToCharset(p).value, true)
      else First(follow, true)
    case TBehind(_, _) => First(follow, true)
  }

  /** True when `t` can fail only depending on the next character. */
  predicate HeadFail(t: Tree) {
    match t
    case TChar(_) => true
    case TSet(_) => true
    case TAny => true
    case TFalse => true
    case TTrue => false
    case TRep(_) => false
    case TNot(_) => false
    case TBehind(_, _) => false
    case TAnd(p) => HeadFail(p)
    case TSeq(p, q) => if !NoFail(q) then false else HeadFail(p)
    case TChoice(p, q) => if !HeadFail(p) then false else HeadFail(q)
  }

  predicate NeedFollow(t: Tree) {
    match t
    case TChoice(_, _) => true
    case TRep(_) => true
    case TSeq(_, q) => NeedFollow(q)
    case _ => false
  }

  /** What the tree builder guarantees: no loop body accepts the empty string
      (lptree.c refuses "loop body may accept empty string"), and a look-behind
      pattern has the fixed length recorded in it. */
  predicate WellFormed(t: Tree) {
    match t
    case TRep(p) => WellFormed(p) && !Nullable(p)
    case TSeq(p, q) => WellFormed(p) && WellFormed(q)
    case TChoice(p, q) => WellFormed(p) && WellFormed(q)
    case TNot(p) => WellFormed(p)
    case TAnd(p) => WellFormed(p)
    case TBehind(n, p) => WellFormed(p) && n == FixedLen(p) <= MAXBEHIND
    case _ => true
  }

  /** A pattern reported as never failing never fails. */
  lemma {:induction false} NoFailSound(t: Tree, s: seq<Char>, i: nat)
    requires i <= |s|
    requires NoFail(t)
    ensures Match(t, s, i).Some?
    decreases t, |s| - i
  {
    match t
    case TRep(p) =>
      var m := Match(p, s, i);
      if m.Some? && m.value != i { NoFailSound(t, s, m.value); }
    case TAnd(p) => NoFailSound(p, s, i);
    case TSeq(p, q) =>
      NoFailSound(p, s, i);
      NoFailSound(q, s, Match(p, s, i).value);
    case TChoice(p, q) =>
      if NoFail(q) { NoFailSound(q, s, i); } else { NoFailSound(p, s, i); }
    case _ =>
  }

  /** A pattern that matched without consuming anything is reported nullable. */
  lemma {:induction false} NullableSound(t: Tree, s: seq<Char>, i: nat)
    requires i <= |s|
    requires Match(t, s, i) == Some(i)
    ensures Nullable(t)
  {
    match t
    case TSeq(p, q) =>
      NullableSound(p, s, i);
      NullableSound(q, s, i);
    case TChoice(p, q) =>
      if Match(p, s, i).Some? { NullableSound(p, s, i); } else { NullableSound(q, s, i); }
    case _ =>
  }

  /** Every success of a fixed-length pattern consumes exactly that length. */
  lemma {:induction false} FixedLenSound(t: Tree, len: nat, s: seq<Char>, i: nat)
    requires i <= |s|
    requires FixedLenX(t, len) >= 0
    ensures Match(t, s, i).Some? ==> Match(t, s, i).value - i == FixedLenX(t, len) - len
  {
    match t
    case TSeq(p, q) =>
      FixedLenSound(p, len, s, i);
      if Match(p, s, i).Some? { FixedLenSound(q, FixedLenX(p, len), s, Match(p, s, i).value); }
    case TChoice(p, q) =>
      FixedLenSound(p, len, s, i);
      FixedLenSound(q, len, s, i);
    case _ =>
  }

  /** A success whose next character is outside the first set consumed nothing,
      and that character is outside the follow set too. */
  lemma {:induction false} FirstSound(t: Tree, fl: Charset, s: seq<Char>, i: nat)
    requires WellFormed(t)
    requires i < |s| && s[i] !in GetFirst(t, fl).cs
    requires Match(t, s, i).Some?
    ensures Match(t, s, i) == Some(i) && s[i] !in fl
  {
    match t
    case TSeq(p, q) =>
      if !Nullable(p) {
        FirstSound(p, Full(), s, i);
        assert false;
      } else {
        FirstSound(p, GetFirst(q, fl).cs, s, i);
        FirstSound(q, fl, s, i);
      }
    case TChoice(p, q) =>
      if Match(p, s, i).Some? { FirstSound(p, fl, s, i); } else { FirstSound(q, fl, s, i); }
    case TRep(p) =>
      if Match(p, s, i).Some? {
        FirstSound(p, fl, s, i);
        NullableSound(p, s, i);
        assert false;
      }
    case TAnd(p) => if s[i] in fl { FirstSound(p, fl, s, i); }
    case _ =>
  }

  /** A first set that may be used for a test belongs to a pattern that fails at
      the end of the subject. */
  lemma {:induction false} EmptySound(t: Tree, fl: Charset, s: seq<Char>)
    requires !GetFirst(t, fl).e
    ensures Match(t, s, |s|) == None
  {
    match t
    case TSeq(p, q) =>
      if !Nullable(p) { EmptySound(p, Full(), s); }
      else if !GetFirst(p, GetFirst(q, fl).cs).e { EmptySound(p, GetFirst(q, fl).cs, s); }
      else { EmptySound(q, fl, s); }
    case TChoice(p, q) => EmptySound(p, fl, s); EmptySound(q, fl, s);
    case TAnd(p) => EmptySound(p, fl, s);
    case _ =>
  }

  /** A failed test on a usable first set means that the pattern fails. */
  lemma TestSound(t: Tree, s: seq<Char>, i: nat)
    requires WellFormed(t) && i <= |s|
    requires !GetFirst(t, Full()).e
    requires !(i < |s| && s[i] in GetFirst(t, Full()).cs)
    ensures Match(t, s, i) == None
  {
    if i < |s| {
      if Match(t, s, i).Some? { FirstSound(t, Full(), s, i); }
    } else {
      EmptySound(t, Full(), s);
    }
  }

  /** A pattern that never fails may start with any character. */
  lemma {:induction false} NoFailFirst(t: Tree)
    requires NoFail(t)
    ensures GetFirst(t, Full()).cs == Full()
  {
    match t
    case TAnd(p) => NoFailFirst(p);
    case TRep(p) => assert forall c :: c in GetFirst(p, Full()).cs ==> c in Full();
    case TSeq(p, q) => NoFailNullable(p); NoFailFirst(q); NoFailFirst(p);
    case TChoice(p, q) =>
      assert forall c :: c in GetFirst(t, Full()).cs ==> c in Full();
      if NoFail(q) { NoFailFirst(q); } else { NoFailFirst(p); }
    case _ =>
  }

  lemma {:induction false} NoFailNullable(t: Tree)
    requires NoFail(t)
    ensures Nullable(t)
  {
    match t
    case TSeq(p, q) => NoFailNullable(p); NoFailNullable(q);
    case TChoice(p, q) => if NoFail(q) { NoFailNullable(q); } else { NoFailNullable(p); }
    case _ =>
  }

  /** For a head-fail pattern the first set decides success exactly. */
  lemma {:induction false} HeadFailExact(t: Tree, s: seq<Char>, i: nat)
    requires i <= |s|
    requires HeadFail(t)
    ensures Match(t, s, i).Some? <==> i < |s| && s[i] in GetFirst(t, Full()).cs
  {
    match t
    case TAnd(p) => HeadFailExact(p, s, i);
    case TSeq(p, q) =>
      HeadFailExact(p, s, i);
      if Match(p, s, i).Some? { NoFailSound(q, s, Match(p, s, i).value); }
      if Nullable(p) { NoFailFirst(q); }
    case TChoice(p, q) => HeadFailExact(p, s, i); HeadFailExact(q, s, i);
    case _ =>
  }
}
