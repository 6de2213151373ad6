/** Patterns from the written expression to the result of a match. */
module LpegPattern {
  import opened Wrappers
  import opened LpegTree
  import opened LpegAnalysis
  import opened LpegGen
  import opened LpegActual
  import opened LpegSafe
  import opened LpegPeephole
  import opened LpegAssoc
  import opened LpegBuild
  import opened LpegAccept

  // Options without a loop at their end.

  /** A loop ends `e`, other than one over single characters. */
  predicate LoopAtEnd(e: Expr) {
    match e
    case Product(p, q) => LoopAtEnd(q) || (IsTrue(q) && LoopAtEnd(p))
    case Sum(p, q) => LoopAtEnd(p) || LoopAtEnd(q)
    case Difference(p, _) => LoopAtEnd(p)
    case Power(p, n) => if n >= 0 then !p.OneOf? else LoopAtEnd(p)
    case _ => false
  }

  /** No option in `e` ends in such a loop. */
  predicate Careful(e: Expr) {
    match e
    case Product(p, q) => Careful(p) && Careful(q)
    case Sum(p, q) => Careful(p) && Careful(q) && (IsTrue(q) ==> !LoopAtEnd(p))
    case Difference(p, q) => Careful(p) && Careful(q)
    case Power(p, n) => Careful(p) && (n < 0 ==> !LoopAtEnd(p))
    case Unless(p) => Careful(p)
    case Ahead(p) => Careful(p)
    case Behind(p) => Careful(p)
    case _ => true
  }

  predicate TreeEnds(t: Tree) {
    match t
    case TSeq(_, q) => TreeEnds(q)
    case TChoice(p, q) => TreeEnds(p) && TreeEnds(q)
    case TRep(p) => ToCharset(p).Some?
    case _ => true
  }

  predicate TreeCareful(t: Tree) {
    match t
    case TRep(p) => TreeCareful(p)
    case TSeq(p, q) => TreeCareful(p) && TreeCareful(q)
    case TChoice(p, q) => TreeCareful(p) && TreeCareful(q) && (q.TTrue? ==> TreeEnds(p))
    case TNot(p) => TreeCareful(p)
    case TAnd(p) => TreeCareful(p)
    case TBehind(_, p) => TreeCareful(p)
    case _ => true
  }

  lemma {:induction false} EndsSafe(t: Tree)
    requires TreeEnds(t)
    ensures OptionSafe(t)
  {
    hide ChoiceByTest, LoopByTest;
    match t
    case TSeq(_, q) => EndsSafe(q);
    case TChoice(p, q) =>
      EndsSafe(p);
      EndsSafe(q);
    case _ =>
  }

  lemma {:induction false} CarefulSafe(t: Tree, fl: Charset)
    requires TreeCareful(t)
    ensures OptionsSafe(t, fl)
  {
    hide ChoiceByTest, LoopByTest, FollowOf, OptionSafe, TreeEnds;
    match t
    case TRep(p) => CarefulSafe(p, Full());
    case TSeq(p, q) =>
      CarefulSafe(p, FollowOf(p, q, fl));
      CarefulSafe(q, fl);
    case TChoice(p, q) =>
      CarefulSafe(p, fl);
      CarefulSafe(p, Full());
      CarefulSafe(q, fl);
      if q.TTrue? { EndsSafe(p); }
    case TNot(p) => CarefulSafe(p, Full());
    case TAnd(p) => CarefulSafe(p, Full());
    case TBehind(_, p) => CarefulSafe(p, Full());
    case _ =>
  }

  // Making operators right associative leaves it so.

  lemma {:induction false} FixedCareful(t: Tree)
    requires IsBinary(t)
    ensures TreeEnds(Fixed(t)) <==> TreeEnds(t)
    ensures TreeCareful(t) ==> TreeCareful(Fixed(t))
    ensures Fixed(t).second.TTrue? ==> t.second.TTrue?
    decreases Size(t.first)
  {
    if TagOf(t.first) == TagOf(t) {
      RotateCareful(t);
      FixedCareful(Rotate(t));
    }
  }

  lemma RotateCareful(t: Tree)
    requires IsBinary(t) && TagOf(t.first) == TagOf(t)
    ensures TreeEnds(Rotate(t)) <==> TreeEnds(t)
    ensures TreeCareful(t) ==> TreeCareful(Rotate(t))
    ensures !Rotate(t).second.TTrue?
  {
    hide TreeEnds, TreeCareful, Encode, Size;
    var a, b, c := t.first.first, t.first.second, t.second;
    Parts(a, b);
    Parts(b, c);
    Parts(t.first, c);
    Parts(a, Like(t, b, c));
  }

  lemma Parts(p: Tree, q: Tree)
    ensures TreeEnds(TSeq(p, q)) <==> TreeEnds(q)
    ensures TreeEnds(TChoice(p, q)) <==> TreeEnds(p) && TreeEnds(q)
    ensures TreeCareful(TSeq(p, q)) <==> TreeCareful(p) && TreeCareful(q)
    ensures TreeCareful(TChoice(p, q)) <==> TreeCareful(p) && TreeCareful(q) && (q.TTrue? ==> TreeEnds(p))
  {
  }

  lemma {:induction false} FinalFixedCareful(t: Tree)
    ensures TreeEnds(FinalFixed(t)) <==> TreeEnds(t)
    ensures TreeCareful(t) ==> TreeCareful(FinalFixed(t))
    ensures ToCharset(FinalFixed(t)).Some? <==> ToCharset(t).Some?
    decreases Size(t)
  {
    if IsBinary(t) {
      FixedCareful(t);
      FinalFixedCareful(Fixed(t).first);
      FinalFixedCareful(Fixed(t).second);
    } else if t.TRep? || t.TNot? || t.TAnd? || t.TBehind? {
      FinalFixedCareful(t.body);
    }
  }

  lemma {:induction false} LiteralCareful(text: seq<Char>)
    ensures TreeCareful(LiteralTree(text)) && TreeEnds(LiteralTree(text))
  {
    if |text| > 1 { LiteralCareful(text[1..]); }
  }

  lemma {:induction false} AnyCareful(n: nat)
    ensures TreeCareful(AnyTree(n)) && TreeEnds(AnyTree(n))
  {
    if n > 1 { AnyCareful(n - 1); }
  }

  lemma {:induction false} StarCareful(t: Tree, n: nat)
    requires TreeCareful(t)
    ensures TreeCareful(AtLeastTree(t, n))
    ensures ToCharset(t).Some? ==> TreeEnds(AtLeastTree(t, n))
    ensures n > 0 && TreeEnds(t) ==> TreeCareful(AtMostTree(t, n)) && TreeEnds(AtMostTree(t, n))
  {
    if n > 0 { StarCareful(t, n - 1); }
  }

  lemma {:induction false} AtMostEnds(t: Tree, n: nat)
    requires n > 0 && TreeEnds(t)
    ensures TreeEnds(AtMostTree(t, n))
  {
    if n > 1 { AtMostEnds(t, n - 1); }
  }

  lemma {:induction false} AtLeastEnds(t: Tree, n: nat)
    requires ToCharset(t).Some?
    ensures TreeEnds(AtLeastTree(t, n))
  {
    if n > 0 { AtLeastEnds(t, n - 1); }
  }

  lemma {:induction false} BuildEnds(e: Expr)
    requires Build(e).Ok? && !LoopAtEnd(e)
    ensures TreeEnds(Build(e).value)
  {
    hide AtLeastTree, AtMostTree, Reported, LiteralTree, AnyTree;
    match e
    case Literal(text) => LiteralCareful(text);
    case Number(n) => AnyCareful(if n >= 0 then n else -n);
    case Product(p, q) =>
      BuildEnds(q);
      TruthOf(q);
      if IsTrue(q) { BuildEnds(p); }
    case Sum(p, q) =>
      BuildEnds(p);
      BuildEnds(q);
    case Difference(p, _) => BuildEnds(p);
    case Power(p, n) => if n >= 0 { AtLeastEnds(Build(p).value, n); } else { BuildEnds(p); AtMostEnds(Build(p).value, -n); }
    case _ =>
  }

  lemma TruthOf(e: Expr)
    requires Build(e).Ok?
    ensures Build(e).value.TTrue? <==> IsTrue(e)
  {
    hide NoFail, FixedLen, Width, NeverFails, Build, IsTrue;
    ReportsExact(e);
  }

  lemma {:induction false} BuildCareful(e: Expr)
    requires Build(e).Ok? && Careful(e)
    ensures TreeCareful(Build(e).value)
  {
    hide AtLeastTree, AtMostTree, TreeEnds, LoopAtEnd, Reported, LiteralTree, AnyTree;
    match e
    case Literal(text) => LiteralCareful(text);
    case Number(n) => AnyCareful(if n >= 0 then n else -n);
    case Product(p, q) =>
      BuildCareful(p);
      BuildCareful(q);
    case Sum(p, q) =>
      BuildCareful(p);
      BuildCareful(q);
      TruthOf(q);
      if IsTrue(q) { BuildEnds(p); }
    case Difference(p, q) =>
      BuildCareful(p);
      BuildCareful(q);
    case Power(p, n) =>
      BuildCareful(p);
      if n < 0 { BuildEnds(p); }
      StarCareful(Build(p).value, if n < 0 then -n else n);
    case Unless(p) => BuildCareful(p);
    case Ahead(p) => BuildCareful(p);
    case Behind(p) => BuildCareful(p);
    case _ =>
  }

  /** The options of what a careful expression is built into are safe. */
  lemma CarefulIsSafe(e: Expr)
    requires Build(e).Ok? && Careful(e)
    ensures OptionsSafe(Prepared(e), Full())
  {
    hide Build, FinalFixed, OptionsSafe;
    BuildCareful(e);
    FinalFixedCareful(Build(e).value);
    CarefulSafe(Prepared(e), Full());
  }

  /** The tree that goes to the compiler. */
  function Prepared(e: Expr): Tree
    requires Build(e).Ok?
  {
    FinalFixed(Build(e).value)
  }

  /** Builds, fixes, compiles and runs. What has an operator to refuse is refused with the error
      of the first one; otherwise, if the options are safe, and they are in a careful expression,
      what comes out is what the expression means. */
  method MatchExpr(e: Expr, s: seq<Char>, i: nat) returns (r: Result<Option<nat>, BuildError>)
    requires i <= |s|
    ensures FirstRefusal(e).Some? ==> r == Err(FirstRefusal(e).value)
    ensures FirstRefusal(e) == None ==>
      Build(e).Ok? && WellFormed(Prepared(e)) && r == Ok(Actual(Prepared(e), Full(), s, i))
    ensures FirstRefusal(e) == None && (Careful(e) || OptionsSafe(Prepared(e), Full())) ==> r == Ok(Meaning(e, s, i))
  {
    hide Meaning, Match, Actual, WellFormed, OptionsSafe, FinalFixed, Build, Careful, FirstRefusal;
    AcceptedExactly(e);
    var t := Build(e);
    if t.Err? { return Err(t.error); }
    BuildWellFormed(e);
    BuildMeans(e, s);
    FinalFixedWellFormed(t.value);
    FinalFixedMatch(t.value, s);
    if Careful(e) { CarefulIsSafe(e); }
    var m := MatchPattern(FinalFixed(t.value), s, i);
    r := Ok(m);
  }
}
