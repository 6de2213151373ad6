/** Which expressions the pattern operators accept, and which error comes otherwise, said of the
    expressions alone. */
module LpegAccept {
  import opened Wrappers
  import opened LpegTree
  import opened LpegAnalysis
  import opened LpegBuild

  /** The expression with every test that consumes nothing taken to succeed. */
  function WithoutTests(e: Expr): Expr {
    match e
    case Number(n) => if n < 0 then Boolean(true) else e
    case Product(p, q) => Product(WithoutTests(p), WithoutTests(q))
    case Sum(p, q) => Sum(WithoutTests(p), WithoutTests(q))
    case Difference(p, _) => WithoutTests(p)
    case Power(p, n) => Power(WithoutTests(p), n)
    case Unless(_) => Boolean(true)
    case Ahead(_) => Boolean(true)
    case Behind(_) => Boolean(true)
    case _ => e
  }

  /** No test in it. */
  predicate Plain(e: Expr) {
    match e
    case Number(n) => n >= 0
    case Product(p, q) => Plain(p) && Plain(q)
    case Sum(p, q) => Plain(p) && Plain(q)
    case Power(p, _) => Plain(p)
    case Difference(_, _) => false
    case Unless(_) => false
    case Ahead(_) => false
    case Behind(_) => false
    case _ => true
  }

  lemma {:induction false} PlainHasNone(e: Expr)
    requires Plain(e)
    ensures WithoutTests(e) == e
  {
    match e
    case Product(p, q) =>
      PlainHasNone(p);
      PlainHasNone(q);
    case Sum(p, q) =>
      PlainHasNone(p);
      PlainHasNone(q);
    case Power(p, _) => PlainHasNone(p);
    case _ =>
  }

  /** It matches the empty subject if its tests are taken to succeed. */
  ghost predicate MayBeEmpty(e: Expr) { Meaning(WithoutTests(e), [], 0).Some? }

  lemma {:induction false} LiteralLength(text: seq<Char>, len: nat)
    ensures Nullable(LiteralTree(text)) <==> text == []
    ensures NoFail(LiteralTree(text)) <==> text == []
    ensures FixedLenX(LiteralTree(text), len) == len + |text|
  {
    if |text| > 1 { LiteralLength(text[1..], len + 1); }
  }

  lemma {:induction false} AnyLength(n: nat, len: nat)
    ensures Nullable(AnyTree(n)) <==> n == 0
    ensures NoFail(AnyTree(n)) <==> n == 0
    ensures FixedLenX(AnyTree(n), len) == len + n
  {
    if n > 1 { AnyLength(n - 1, len + 1); }
  }

  lemma PairNullable(t1: Tree, t2: Tree)
    ensures Nullable(SeqTree(t1, t2)) <==> Nullable(t1) && Nullable(t2)
    ensures Nullable(ChoiceTree(t1, t2)) <==> Nullable(t1) || Nullable(t2)
    ensures Nullable(SubTree(t1, t2)) <==> Nullable(t1)
  {
    if NoFail(t1) { NoFailNullable(t1); }
    assert Nullable(TSeq(TNot(t2), t1)) <==> Nullable(TNot(t2)) && Nullable(t1);
  }

  lemma EmptyPair(e: Expr)
    requires (e.Product? || e.Sum? || e.Difference?) && Build(e).Ok?
    requires Build(e.p).Ok? ==> (Nullable(Build(e.p).value) <==> MayBeEmpty(e.p))
    requires Build(e.q).Ok? ==> (Nullable(Build(e.q).value) <==> MayBeEmpty(e.q))
    ensures Nullable(Build(e).value) <==> MayBeEmpty(e)
  {
    hide AtLeast, AtMost, Nullable, SeqTree, ChoiceTree, SubTree;
    PairNullable(Build(e.p).value, Build(e.q).value);
  }

  lemma EmptyPower(p: Expr, n: int)
    requires Build(Power(p, n)).Ok?
    requires Build(p).Ok? ==> (Nullable(Build(p).value) <==> MayBeEmpty(p))
    ensures Nullable(Build(Power(p, n)).value) <==> MayBeEmpty(Power(p, n))
  {
    hide Nullable, AtLeastTree, AtMostTree;
    var t := Build(p).value;
    var w := WithoutTests(p);
    if n >= 0 {
      AtLeastNullable(t, n);
      assert Meaning(w, [], 0) == None;
      assert AtLeast(w, n, [], 0) == if n == 0 then Some(0) else None;
    } else {
      AtMostNullable(t, -n);
    }
  }

  lemma AtLeastNullable(t: Tree, n: nat)
    requires !Nullable(t)
    ensures Nullable(AtLeastTree(t, n)) <==> n == 0
  {
  }

  lemma AtMostNullable(t: Tree, n: nat)
    requires n > 0
    ensures Nullable(AtMostTree(t, n))
  {
  }

  /** What nullable reports of a built tree: whether the expression may match nothing at all. */
  lemma {:induction false} NullableExact(e: Expr)
    requires Build(e).Ok?
    ensures Nullable(Build(e).value) <==> MayBeEmpty(e)
  {
    hide Nullable, MayBeEmpty, LiteralTree, AnyTree, SeqTree, ChoiceTree, SubTree, StarTree, BehindTree;
    match e
    case Product(p, q) =>
      NullableExact(p);
      NullableExact(q);
      EmptyPair(e);
    case Sum(p, q) =>
      NullableExact(p);
      NullableExact(q);
      EmptyPair(e);
    case Difference(p, q) =>
      NullableExact(p);
      NullableExact(q);
      EmptyPair(e);
    case Power(p, n) =>
      NullableExact(p);
      EmptyPower(p, n);
    case _ => EmptyRest(e);
  }

  lemma EmptyRest(e: Expr)
    requires Build(e).Ok? && !e.Product? && !e.Sum? && !e.Difference? && !e.Power?
    ensures Nullable(Build(e).value) <==> MayBeEmpty(e)
  {
    hide LiteralTree, AnyTree, AtLeast, AtMost, FixedLenX;
    match e
    case Literal(text) => LiteralLength(text, 0);
    case Number(n) => AnyLength(if n >= 0 then n else -n, 0);
    case _ =>
  }

  /** A loop without tests is refused exactly if its body matches the empty subject. */
  lemma PlainLoopAccepted(p: Expr, n: int)
    requires Plain(p)
    ensures Build(Power(p, n)).Ok? <==> Build(p).Ok? && (n < 0 || Meaning(p, [], 0) == None)
  {
    hide Meaning;
    PlainHasNone(p);
    if Build(p).Ok? { NullableExact(p); }
  }

  /** Built into the pattern that always matches, and into the one that never does. */
  predicate IsTrue(e: Expr) {
    match e
    case Literal(text) => text == []
    case Number(n) => n == 0
    case Boolean(b) => b
    case Product(p, q) => IsTrue(p) && IsTrue(q)
    case Sum(p, q) => IsTrue(p) || (IsFalse(p) && IsTrue(q))
    case _ => false
  }

  predicate IsFalse(e: Expr) {
    match e
    case Boolean(b) => !b
    case Product(p, q) => IsFalse(p) || (IsTrue(p) && IsFalse(q))
    case Sum(p, q) => IsFalse(p) && IsFalse(q)
    case _ => false
  }

  /** Known to match everywhere: a test is never known to, except one of something that is. */
  predicate NeverFails(e: Expr) {
    match e
    case Literal(text) => text == []
    case Number(n) => n == 0
    case Boolean(b) => b
    case Product(p, q) => NeverFails(p) && NeverFails(q)
    case Sum(p, q) => NeverFails(p) || NeverFails(q)
    case Power(_, n) => n <= 0
    case Ahead(p) => NeverFails(p)
    case _ => false
  }

  /** The one number of characters a match takes as far as the operators tell, if there is one:
      a loop has none, a test takes nothing, and alternatives that can be chosen must agree. */
  function Width(e: Expr): Option<nat> {
    match e
    case Literal(text) => Some(|text|)
    case Number(n) => Some(if n >= 0 then n else 0)
    case Boolean(_) => Some(0)
    case OneOf(_) => Some(1)
    case Product(p, q) => if IsFalse(p) then Some(0) else Both(Width(p), Width(q))
    case Sum(p, q) =>
      if IsFalse(p) then Width(q)
      else if NeverFails(p) || IsFalse(q) || Width(p) == Width(q) then Width(p)
      else None
    case Difference(p, _) => Width(p)
    case Power(p, n) => if n < 0 && Width(p) == Some(0) then Some(0) else None
    case Unless(_) => Some(0)
    case Ahead(_) => Some(0)
    case Behind(_) => Some(0)
  }

  function Both(a: Option<nat>, b: Option<nat>): Option<nat> {
    if a.Some? && b.Some? then Some(a.value + b.value) else None
  }

  /** What the analyses report of the tree of an expression. */
  ghost predicate Reported(t: Tree, e: Expr) {
    && (t.TTrue? <==> IsTrue(e))
    && (t.TFalse? <==> IsFalse(e))
    && (NoFail(t) <==> NeverFails(e))
    && FixedLen(t) == if Width(e).Some? then Width(e).value else -1
  }

  lemma {:induction false} LengthOf(p: Tree, q: Tree, len: int)
    ensures FixedLenX(TSeq(p, q), len) == if FixedLenX(p, len) < 0 then -1 else FixedLenX(q, FixedLenX(p, len))
    ensures FixedLenX(TChoice(p, q), len) ==
      if FixedLenX(p, len) >= 0 && FixedLenX(p, len) == FixedLenX(q, len) then FixedLenX(p, len) else -1
  {
  }

  lemma {:induction false} LeafLength(t: Tree, len: nat)
    requires !t.TSeq? && !t.TChoice?
    ensures FixedLen(t) >= -1
    ensures FixedLenX(t, len) == if FixedLen(t) < 0 then -1 else len + FixedLen(t)
  {
  }

  lemma {:induction false} LengthAdds(t: Tree, len: nat)
    ensures FixedLen(t) >= -1
    ensures FixedLenX(t, len) == if FixedLen(t) < 0 then -1 else len + FixedLen(t)
  {
    hide FixedLenX;
    match t
    case TSeq(p, q) =>
      LengthOf(p, q, len);
      LengthOf(p, q, 0);
      LengthAdds(p, len);
      LengthAdds(p, 0);
      if FixedLen(p) >= 0 {
        LengthAdds(q, len + FixedLen(p));
        LengthAdds(q, FixedLen(p));
      }
    case TChoice(p, q) =>
      LengthOf(p, q, len);
      LengthOf(p, q, 0);
      LengthAdds(p, len);
      LengthAdds(q, len);
      LengthAdds(p, 0);
      LengthAdds(q, 0);
    case _ => LeafLength(t, len);
  }

  lemma SeqReported(p: Expr, q: Expr, t1: Tree, t2: Tree)
    requires Reported(t1, p) && Reported(t2, q)
    ensures Reported(SeqTree(t1, t2), Product(p, q))
  {
    LengthAdds(t2, if FixedLen(t1) >= 0 then FixedLen(t1) else 0);
    LengthAdds(t1, 0);
  }

  lemma CharsetReported(t: Tree)
    ensures ToCharset(t).Some? ==> !NoFail(t) && FixedLen(t) == 1 && !t.TTrue? && !t.TFalse?
  {
  }

  lemma TrueChoice(t1: Tree, t2: Tree)
    ensures NoFail(TChoice(t1, t2)) <==> NoFail(t1) || NoFail(t2)
    ensures FixedLen(TChoice(t1, t2)) == if FixedLen(t1) >= 0 && FixedLen(t1) == FixedLen(t2) then FixedLen(t1) else -1
  {
    LengthAdds(t1, 0);
    LengthAdds(t2, 0);
  }

  lemma ChoiceReported(p: Expr, q: Expr, t1: Tree, t2: Tree)
    requires Reported(t1, p) && Reported(t2, q)
    ensures Reported(ChoiceTree(t1, t2), Sum(p, q))
  {
    hide Width, NoFail, FixedLen, ToCharset;
    WidthOfSum(p, q);
    CharsetReported(t1);
    CharsetReported(t2);
    TrueIsSure(t1);
    TrueIsSure(t2);
    TrueChoice(t1, t2);
    if ToCharset(t1).Some? && ToCharset(t2).Some? {
      var union := TSet(ToCharset(t1).value + ToCharset(t2).value);
      SetCharset(union.cs);
      CharsetReported(union);
    }
  }

  lemma SetCharset(cs: Charset)
    ensures ToCharset(TSet(cs)).Some?
  {
  }

  lemma TrueIsSure(t: Tree)
    ensures t.TTrue? ==> NoFail(t)
    ensures t.TFalse? ==> !NoFail(t) && FixedLen(t) == 0
  {
  }

  lemma WidthOfSum(p: Expr, q: Expr)
    ensures Width(Sum(p, q)) ==
      if IsFalse(p) then Width(q)
      else if NeverFails(p) || IsFalse(q) || Width(p) == Width(q) then Width(p)
      else None
  {
  }

  lemma SubReported(p: Expr, q: Expr, t1: Tree, t2: Tree)
    requires Reported(t1, p) && Reported(t2, q)
    ensures Reported(SubTree(t1, t2), Difference(p, q))
  {
    hide NoFail, FixedLen, ToCharset;
    CharsetReported(t1);
    NotThen(t1, t2);
    if ToCharset(t1).Some? && ToCharset(t2).Some? {
      var rest := TSet(ToCharset(t1).value - ToCharset(t2).value);
      SetCharset(rest.cs);
      CharsetReported(rest);
    }
  }

  lemma NotThen(t1: Tree, t2: Tree)
    ensures !NoFail(TSeq(TNot(t2), t1)) && FixedLen(TSeq(TNot(t2), t1)) == FixedLen(t1)
  {
    LengthOf(TNot(t2), t1, 0);
    LengthAdds(t1, 0);
    assert FixedLenX(TNot(t2), 0) == 0 && !NoFail(TNot(t2));
  }

  lemma {:induction false} AtMostLength(t: Tree, n: nat)
    requires n > 0
    ensures NoFail(AtMostTree(t, n))
    ensures FixedLen(AtMostTree(t, n)) == if FixedLen(t) == 0 then 0 else -1
  {
    LengthAdds(t, 0);
    if n > 1 {
      var rest := AtMostTree(t, n - 1);
      AtMostLength(t, n - 1);
      LengthAdds(rest, if FixedLen(t) >= 0 then FixedLen(t) else 0);
      assert AtMostTree(t, n) == TChoice(TSeq(t, rest), TTrue);
      assert FixedLen(TSeq(t, rest)) == if FixedLen(t) == 0 then 0 else -1;
      assert FixedLen(TChoice(TSeq(t, rest), TTrue)) == FixedLen(TSeq(t, rest));
    } else {
      assert FixedLenX(TTrue, 0) == 0;
      assert FixedLenX(TChoice(t, TTrue), 0) == if FixedLenX(t, 0) == 0 then 0 else -1;
    }
  }

  lemma {:induction false} AtLeastLength(t: Tree, n: nat)
    requires !Nullable(t)
    ensures NoFail(AtLeastTree(t, n)) <==> n == 0
    ensures FixedLen(AtLeastTree(t, n)) == -1
  {
    if NoFail(t) { NoFailNullable(t); }
    if n > 0 {
      AtLeastLength(t, n - 1);
      LengthAdds(AtLeastTree(t, n - 1), if FixedLen(t) >= 0 then FixedLen(t) else 0);
    }
  }

  /** Each report about a built tree, from the expression. */
  lemma {:induction false} ReportsExact(e: Expr)
    requires Build(e).Ok?
    ensures Reported(Build(e).value, e)
  {
    hide Reported, LiteralTree, AnyTree, SeqTree, ChoiceTree, SubTree, StarTree, BehindTree;
    match e
    case Literal(text) => LiteralReported(text);
    case Number(n) => NumberReported(n);
    case Boolean(b) => ConstantReported(b);
    case OneOf(cs) => SetReported(cs);
    case Product(p, q) =>
      ReportsExact(p);
      ReportsExact(q);
      SeqReported(p, q, Build(p).value, Build(q).value);
    case Sum(p, q) =>
      ReportsExact(p);
      ReportsExact(q);
      ChoiceReported(p, q, Build(p).value, Build(q).value);
    case Difference(p, q) =>
      ReportsExact(p);
      ReportsExact(q);
      SubReported(p, q, Build(p).value, Build(q).value);
    case Power(p, n) =>
      ReportsExact(p);
      PowerReported(p, Build(p).value, n);
    case Unless(p) => TestReported(p, Build(p).value);
    case Ahead(p) =>
      ReportsExact(p);
      AheadReported(p, Build(p).value);
    case Behind(p) => BehindReported(p, Build(p).value);
  }

  lemma ConstantReported(b: bool)
    ensures Reported(if b then TTrue else TFalse, Boolean(b))
  {
  }

  lemma SetReported(cs: Charset)
    ensures Reported(TSet(cs), OneOf(cs))
  {
  }

  lemma TestReported(p: Expr, t: Tree)
    ensures Reported(TNot(t), Unless(p))
  {
  }

  lemma AheadReported(p: Expr, t: Tree)
    requires Reported(t, p)
    ensures Reported(TAnd(t), Ahead(p))
  {
  }

  lemma BehindReported(p: Expr, t: Tree)
    requires BehindTree(t).Ok?
    ensures Reported(BehindTree(t).value, Behind(p))
  {
    hide FixedLenX;
    LookBehindLength(BehindTree(t).value);
  }

  lemma LookBehindLength(t: Tree)
    requires t.TBehind?
    ensures FixedLen(t) == 0 && !NoFail(t)
  {
  }

  lemma PowerReported(p: Expr, t: Tree, n: int)
    requires Reported(t, p) && StarTree(t, n).Ok?
    ensures Reported(StarTree(t, n).value, Power(p, n))
  {
    hide NoFail, Nullable, FixedLen, AtLeastTree, AtMostTree;
    if n < 0 { AtMostLength(t, -n); } else { AtLeastLength(t, n); }
    PowerIsNoConstant(t, n);
  }

  lemma LiteralReported(text: seq<Char>)
    ensures Reported(LiteralTree(text), Literal(text))
  {
    LiteralLength(text, 0);
  }

  lemma NumberReported(n: int)
    ensures Reported(NumTree(n), Number(n))
  {
    if n >= 0 { AnyLength(n, 0); }
  }

  lemma PowerIsNoConstant(t: Tree, n: int)
    requires StarTree(t, n).Ok?
    ensures !StarTree(t, n).value.TTrue? && !StarTree(t, n).value.TFalse?
  {
  }

  /** The first operator that is refused, operands before operators and left before right,
      and why. */
  ghost function FirstRefusal(e: Expr): Option<BuildError> {
    match e
    case Product(p, q) => Earlier(FirstRefusal(p), FirstRefusal(q))
    case Sum(p, q) => Earlier(FirstRefusal(p), FirstRefusal(q))
    case Difference(p, q) => Earlier(FirstRefusal(p), FirstRefusal(q))
    case Power(p, n) => Earlier(FirstRefusal(p), if n >= 0 && MayBeEmpty(p) then Some(EmptyLoopBody) else None)
    case Unless(p) => FirstRefusal(p)
    case Ahead(p) => FirstRefusal(p)
    case Behind(p) =>
      Earlier(FirstRefusal(p),
        if Width(p).None? || Width(p).value == 0 then Some(NoFixedLength)
        else if Width(p).value > 255 then Some(TooLongToLookBehind)
        else None)
    case _ => None
  }

  function Earlier(a: Option<BuildError>, b: Option<BuildError>): Option<BuildError> { if a.Some? then a else b }

  /** The builders refuse exactly what has a refused operator, and report the first one. */
  lemma {:induction false} AcceptedExactly(e: Expr)
    ensures Build(e).Ok? <==> FirstRefusal(e) == None
    ensures Build(e).Err? ==> Some(Build(e).error) == FirstRefusal(e)
  {
    hide MayBeEmpty, Width, Nullable, FixedLen, LiteralTree, AnyTree, SeqTree, ChoiceTree, SubTree;
    match e
    case Product(p, q) =>
      AcceptedExactly(p);
      AcceptedExactly(q);
    case Sum(p, q) =>
      AcceptedExactly(p);
      AcceptedExactly(q);
    case Difference(p, q) =>
      AcceptedExactly(p);
      AcceptedExactly(q);
    case Power(p, n) =>
      AcceptedExactly(p);
      if Build(p).Ok? { NullableExact(p); }
    case Unless(p) => AcceptedExactly(p);
    case Ahead(p) => AcceptedExactly(p);
    case Behind(p) =>
      AcceptedExactly(p);
      if Build(p).Ok? { ReportsExact(p); }
    case _ =>
  }

  /** Every match of an accepted look-behind takes the same number of characters, 1 to 255. */
  lemma AcceptedBehindIsFixed(p: Expr)
    requires Build(Behind(p)).Ok?
    ensures exists n :: 1 <= n <= 255 && TakesAlways(p, n)
  {
    var t := Build(p).value;
    var n := FixedLen(t);
    forall s: seq<Char>, i: nat | i <= |s| && Meaning(p, s, i).Some? ensures Meaning(p, s, i).value == i + n {
      BuildMeans(p, s);
      FixedLenSound(t, 0, s, i);
      assert Match(t, s, i) == Meaning(p, s, i);
    }
    assert TakesAlways(p, n);
  }

  ghost predicate TakesAlways(p: Expr, n: nat) {
    forall s: seq<Char>, i: nat :: i <= |s| && Meaning(p, s, i).Some? ==> Meaning(p, s, i).value == i + n
  }

  /** A sequence of characters to match, without alternatives, loops and tests. */
  predicate Straight(e: Expr) {
    match e
    case Literal(_) => true
    case Number(n) => n >= 0
    case Boolean(b) => b
    case OneOf(cs) => cs != {}
    case Product(p, q) => Straight(p) && Straight(q)
    case _ => false
  }

  /** Such a sequence matches some subject as a whole, and nothing of another length. */
  lemma {:induction false} StraightMatch(e: Expr) returns (s: seq<Char>)
    requires Straight(e)
    ensures Width(e) == Some(|s|) && FirstRefusal(e) == None && !IsFalse(e)
    ensures forall before: seq<Char>, after: seq<Char> :: Meaning(e, before + s + after, |before|) == Some(|before| + |s|)
  {
    match e
    case Literal(text) =>
      s := text;
      forall before: seq<Char>, after: seq<Char>
        ensures Meaning(e, before + s + after, |before|) == Some(|before| + |s|)
      {
        assert (before + s + after)[|before|..] == s + after;
      }
    case Number(n) => s := seq(n, _ => 0);
    case Boolean(_) => s := [];
    case OneOf(cs) =>
      var c :| c in cs;
      s := [c];
    case Product(p, q) =>
      var a := StraightMatch(p);
      var b := StraightMatch(q);
      s := a + b;
      forall before: seq<Char>, after: seq<Char>
        ensures Meaning(e, before + s + after, |before|) == Some(|before| + |s|)
      {
        assert before + s + after == before + a + (b + after);
        assert before + s + after == (before + a) + b + after;
      }
  }

  ghost predicate MatchesOf(p: Expr, n: nat) { exists s: seq<Char> :: |s| == n && Meaning(p, s, 0) == Some(n) }

  /** It may be looked behind for exactly if it matches a subject of 1 to 255 characters. */
  lemma StraightBehindAccepted(p: Expr)
    requires Straight(p)
    ensures Build(Behind(p)).Ok? <==> exists n :: 1 <= n <= 255 && MatchesOf(p, n)
  {
    hide Meaning, FirstRefusal, MatchesOf;
    var m := StraightMatches(p);
    AcceptedExactly(p);
    AcceptedExactly(Behind(p));
    StraightRefusal(p);
    forall n: nat | MatchesOf(p, n) ensures n == m { OnlyWidth(p, n); }
  }

  lemma StraightMatches(p: Expr) returns (n: nat)
    requires Straight(p)
    ensures Width(p) == Some(n) && FirstRefusal(p) == None && MatchesOf(p, n)
  {
    var s := StraightMatch(p);
    n := |s|;
    var none: seq<Char> := [];
    assert none + s + none == s;
    assert Meaning(p, none + s + none, |none|) == Some(n);
  }

  lemma OnlyWidth(p: Expr, n: nat)
    requires Build(p).Ok? && Width(p).Some? && MatchesOf(p, n)
    ensures n == Width(p).value
  {
    hide Meaning, Build, Match, FixedLenX;
    var s: seq<Char> :| |s| == n && Meaning(p, s, 0) == Some(n);
    ReportsExact(p);
    BuildMeans(p, s);
    FixedLenSound(Build(p).value, 0, s, 0);
    assert Match(Build(p).value, s, 0) == Meaning(p, s, 0);
  }

  lemma StraightRefusal(p: Expr)
    requires FirstRefusal(p) == None && Width(p).Some?
    ensures FirstRefusal(Behind(p)) == None <==> 1 <= Width(p).value <= 255
  {
  }
}
