/** Patterns whose success hangs on the next character alone: for these the analyses of lpcode.c are
    not only sound but exact. */
module LpegExact {
  import opened Wrappers
  import opened LpegTree
  import opened LpegAnalysis

  /** No look-behind, no test but of one character, and nothing that can fail behind anything. */
  predicate OneStep(t: Tree) {
    match t
    case TSeq(p, q) => OneStep(p) && OneStep(q) && NoFail(q)
    case TChoice(p, q) => OneStep(p) && OneStep(q)
    case TAnd(p) => OneStep(p)
    case TNot(p) => ToCharset(p).Some?
    case TBehind(_, _) => false
    case _ => true
  }

  lemma SeqHangsOnFirst(p: Tree, q: Tree, s: seq<Char>, i: nat)
    requires i <= |s| && NoFail(q)
    ensures Match(TSeq(p, q), s, i).Some? <==> Match(p, s, i).Some?
  {
    if Match(p, s, i).Some? { NoFailSound(q, s, Match(p, s, i).value); }
  }

  /** The first set holds exactly the characters on which the pattern matches. */
  lemma {:induction false} FirstExact(t: Tree, s: seq<Char>, i: nat)
    requires OneStep(t) && i < |s|
    ensures Match(t, s, i).Some? <==> s[i] in GetFirst(t, Full()).cs
  {
    match t
    case TSeq(p, q) =>
      SeqHangsOnFirst(p, q, s, i);
      NoFailFirst(q);
      FirstExact(p, s, i);
    case TChoice(p, q) =>
      FirstExact(p, s, i);
      FirstExact(q, s, i);
    case TAnd(p) => FirstExact(p, s, i);
    case TRep(p) => NoFailSound(t, s, i);
    case TNot(p) => assert Match(p, s, i).Some? <==> s[i] in ToCharset(p).value;
    case _ =>
  }

  /** Whether the empty string may be accepted tells whether the pattern matches at the end. */
  lemma {:induction false} EmptyExact(t: Tree, fl: Charset, s: seq<Char>)
    requires OneStep(t)
    ensures GetFirst(t, fl).e <==> Match(t, s, |s|).Some?
  {
    match t
    case TSeq(p, q) =>
      SeqHangsOnFirst(p, q, s, |s|);
      NoFailSound(q, s, |s|);
      EmptyExact(q, fl, s);
      EmptyExact(p, GetFirst(q, fl).cs, s);
      EmptyExact(p, Full(), s);
      if Match(p, s, |s|).Some? { NullableSound(p, s, |s|); }
    case TChoice(p, q) =>
      EmptyExact(p, fl, s);
      EmptyExact(q, fl, s);
    case TAnd(p) => EmptyExact(p, fl, s);
    case TRep(p) => NoFailSound(t, s, |s|);
    case _ =>
  }

  /** And exactly the patterns that fail at the end fail only because of the next character. */
  lemma {:induction false} HeadFailExactly(t: Tree, s: seq<Char>)
    requires OneStep(t)
    ensures HeadFail(t) <==> Match(t, s, |s|) == None
  {
    match t
    case TSeq(p, q) =>
      SeqHangsOnFirst(p, q, s, |s|);
      HeadFailExactly(p, s);
    case TChoice(p, q) =>
      HeadFailExactly(p, s);
      HeadFailExactly(q, s);
    case TAnd(p) => HeadFailExactly(p, s);
    case TRep(p) => NoFailSound(t, s, |s|);
    case _ =>
  }

  /** No test in it. */
  predicate Plain(t: Tree) {
    match t
    case TRep(p) => Plain(p)
    case TSeq(p, q) => Plain(p) && Plain(q)
    case TChoice(p, q) => Plain(p) && Plain(q)
    case TNot(_) => false
    case TAnd(_) => false
    case TBehind(_, _) => false
    case _ => true
  }

  /** Without tests, what may be empty is what never fails, and what matches the empty subject. */
  lemma {:induction false} PlainExact(t: Tree)
    requires Plain(t)
    ensures Nullable(t) <==> Match(t, [], 0).Some?
    ensures NoFail(t) <==> Match(t, [], 0).Some?
  {
    match t
    case TSeq(p, q) =>
      PlainExact(p);
      PlainExact(q);
    case TChoice(p, q) =>
      PlainExact(p);
      PlainExact(q);
    case TRep(p) => NoFailSound(t, [], 0);
    case _ =>
  }
}
