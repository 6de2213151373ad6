/** The pattern operators of lptree.c, which simplify while they build. */
module LpegBuild {
  import opened Wrappers
  import opened LpegTree
  import opened LpegAnalysis

  /** A pattern as a program writes it: p * q, p + q, p - q, p^n, -p, #p, and B(p). */
  datatype Expr =
    | Literal(text: seq<Char>)
    | Number(n: int)
    | Boolean(b: bool)
    | OneOf(cs: Charset)
    | Product(p: Expr, q: Expr)
    | Sum(p: Expr, q: Expr)
    | Difference(p: Expr, q: Expr)
    | Power(p: Expr, n: int)
    | Unless(p: Expr)
    | Ahead(p: Expr)
    | Behind(p: Expr)

  datatype BuildError = EmptyLoopBody | NoFixedLength | TooLongToLookBehind

  // What an expression means, without trees.

  /** The position after `e` matched `s` from `i`, or None if it fails. */
  ghost function Meaning(e: Expr, s: seq<Char>, i: nat): (r: Option<nat>)
    requires i <= |s|
    ensures r.Some? ==> i <= r.value <= |s|
    decreases e, 0, 0
  {
    match e
    case Literal(text) => if text <= s[i..] then Some(i + |text|) else None
    case Number(n) =>
      if n >= 0 then (if n <= |s| - i then Some(i + n) else None)
      else if -n <= |s| - i then None else Some(i)
    case Boolean(b) => if b then Some(i) else None
    case OneOf(cs) => if i < |s| && s[i] in cs then Some(i + 1) else None
    case Product(p, q) => var m := Meaning(p, s, i); if m.Some? then Meaning(q, s, m.value) else None
    case Sum(p, q) => var m := Meaning(p, s, i); if m.Some? then m else Meaning(q, s, i)
    case Difference(p, q) => if Meaning(q, s, i).Some? then None else Meaning(p, s, i)
    case Power(p, n) => if n >= 0 then AtLeast(p, n, s, i) else AtMost(p, -n, s, i)
    case Unless(p) => if Meaning(p, s, i).Some? then None else Some(i)
    case Ahead(p) => if Meaning(p, s, i).Some? then Some(i) else None
    case Behind(p) => if exists j: nat :: j <= i && Meaning(p, s, j) == Some(i) then Some(i) else None
  }

  /** As often as possible, and at least `n` times. */
  ghost function AtLeast(p: Expr, n: nat, s: seq<Char>, i: nat): (r: Option<nat>)
    requires i <= |s|
    ensures r.Some? ==> i <= r.value <= |s|
    decreases p, 1, n + |s| - i
  {
    match Meaning(p, s, i)
    case None => if n == 0 then Some(i) else None
    case Some(j) =>
      if n > 0 then AtLeast(p, n - 1, s, j)
      else if j == i then Some(i) else AtLeast(p, 0, s, j)
  }

  /** As often as possible, and at most `n` times. */
  ghost function AtMost(p: Expr, n: nat, s: seq<Char>, i: nat): (r: Option<nat>)
    requires i <= |s|
    ensures r.Some? && i <= r.value <= |s|
    decreases p, 1, n
  {
    if n == 0 then Some(i)
    else
      match Meaning(p, s, i)
      case None => Some(i)
      case Some(j) => AtMost(p, n - 1, s, j)
  }

  // The builders.

  function LiteralTree(text: seq<Char>): Tree {
    if text == [] then TTrue
    else if |text| == 1 then TChar(text[0])
    else TSeq(TChar(text[0]), LiteralTree(text[1..]))
  }

  function AnyTree(n: nat): Tree {
    if n == 0 then TTrue
    else if n == 1 then TAny
    else TSeq(TAny, AnyTree(n - 1))
  }

  function NumTree(n: int): Tree { if n >= 0 then AnyTree(n) else TNot(AnyTree(-n)) }

  function SeqTree(t1: Tree, t2: Tree): Tree {
    if t1.TFalse? || t2.TTrue? then t1
    else if t1.TTrue? then t2
    else TSeq(t1, t2)
  }

  function ChoiceTree(t1: Tree, t2: Tree): Tree {
    var st1 := ToCharset(t1);
    var st2 := ToCharset(t2);
    if st1.Some? && st2.Some? then TSet(st1.value + st2.value)
    else if NoFail(t1) || t2.TFalse? then t1
    else if t1.TFalse? then t2
    else TChoice(t1, t2)
  }

  function SubTree(t1: Tree, t2: Tree): Tree {
    var st1 := ToCharset(t1);
    var st2 := ToCharset(t2);
    if st1.Some? && st2.Some? then TSet(st1.value - st2.value)
    else TSeq(TNot(t2), t1)
  }

  function AtLeastTree(t: Tree, n: nat): Tree { if n == 0 then TRep(t) else TSeq(t, AtLeastTree(t, n - 1)) }

  function AtMostTree(t: Tree, n: nat): Tree
    requires n > 0
  {
    if n == 1 then TChoice(t, TTrue) else TChoice(TSeq(t, AtMostTree(t, n - 1)), TTrue)
  }

  function StarTree(t: Tree, n: int): Result<Tree, BuildError> {
    if n < 0 then Ok(AtMostTree(t, -n))
    else if Nullable(t) then Err(EmptyLoopBody)
    else Ok(AtLeastTree(t, n))
  }

  function BehindTree(t: Tree): Result<Tree, BuildError> {
    var n := FixedLen(t);
    if n <= 0 then Err(NoFixedLength)
    else if n > MAXBEHIND then Err(TooLongToLookBehind)
    else Ok(TBehind(n, t))
  }

  function Join(t1: Result<Tree, BuildError>, t2: Result<Tree, BuildError>,
        root: (Tree, Tree) -> Tree): Result<Tree, BuildError> {
    if t1.Err? then t1 else if t2.Err? then t2 else Ok(root(t1.value, t2.value))
  }

  /** The tree of an expression, or the first error of an operator in it. */
  function Build(e: Expr): Result<Tree, BuildError> {
    match e
    case Literal(text) => Ok(LiteralTree(text))
    case Number(n) => Ok(NumTree(n))
    case Boolean(b) => Ok(if b then TTrue else TFalse)
    case OneOf(cs) => Ok(TSet(cs))
    case Product(p, q) => Join(Build(p), Build(q), SeqTree)
    case Sum(p, q) => Join(Build(p), Build(q), ChoiceTree)
    case Difference(p, q) => Join(Build(p), Build(q), SubTree)
    case Power(p, n) => var t := Build(p); if t.Ok? then StarTree(t.value, n) else t
    case Unless(p) => var t := Build(p); if t.Ok? then Ok(TNot(t.value)) else t
    case Ahead(p) => var t := Build(p); if t.Ok? then Ok(TAnd(t.value)) else t
    case Behind(p) => var t := Build(p); if t.Ok? then BehindTree(t.value) else t
  }

  // What the builders give means what was written.

  ghost predicate SameMeaning(t: Tree, e: Expr, s: seq<Char>) {
    forall i: nat :: i <= |s| ==> Match(t, s, i) == Meaning(e, s, i)
  }

  lemma {:induction false} LiteralMatch(text: seq<Char>, s: seq<Char>, i: nat)
    requires i <= |s|
    ensures WellFormed(LiteralTree(text))
    ensures Match(LiteralTree(text), s, i) == if text <= s[i..] then Some(i + |text|) else None
  {
    if |text| > 1 {
      if i < |s| && s[i] == text[0] {
        LiteralMatch(text[1..], s, i + 1);
        assert s[i..] == [s[i]] + s[i + 1..];
        assert text == [text[0]] + text[1..];
        assert text <= s[i..] <==> text[1..] <= s[i + 1..];
      } else {
        LiteralMatch(text[1..], s, i);
      }
    } else if text != [] && i < |s| {
      assert s[i..][0] == s[i];
    }
  }

  lemma {:induction false} AnyMatch(n: nat, s: seq<Char>, i: nat)
    requires i <= |s|
    ensures WellFormed(AnyTree(n))
    ensures Match(AnyTree(n), s, i) == if n <= |s| - i then Some(i + n) else None
  {
    if n > 1 { AnyMatch(n - 1, s, if i < |s| then i + 1 else i); }
  }

  /** The simplified sequence matches what the plain one does. */
  lemma SeqTreeMatch(t1: Tree, t2: Tree, s: seq<Char>, i: nat)
    requires i <= |s|
    ensures Match(SeqTree(t1, t2), s, i) == Match(TSeq(t1, t2), s, i)
  {
    var m := Match(t1, s, i);
    if t2.TTrue? && m.Some? { assert Match(t2, s, m.value) == m; }
  }

  /** A union of charsets, or a choice without an operand that can never be chosen, matches
      what the plain choice does. */
  lemma ChoiceTreeMatch(t1: Tree, t2: Tree, s: seq<Char>, i: nat)
    requires i <= |s|
    ensures Match(ChoiceTree(t1, t2), s, i) == Match(TChoice(t1, t2), s, i)
  {
    if NoFail(t1) { NoFailSound(t1, s, i); }
    CharsetMatch(t1, s, i);
    CharsetMatch(t2, s, i);
  }

  /** A difference of charsets matches what the exclusion of the second operand does. */
  lemma SubTreeMatch(t1: Tree, t2: Tree, s: seq<Char>, i: nat)
    requires i <= |s|
    ensures Match(SubTree(t1, t2), s, i) == if Match(t2, s, i).Some? then None else Match(t1, s, i)
  {
    CharsetMatch(t1, s, i);
    CharsetMatch(t2, s, i);
  }

  lemma CharsetMatch(t: Tree, s: seq<Char>, i: nat)
    requires i <= |s|
    ensures ToCharset(t).Some? ==>
      Match(t, s, i) == if i < |s| && s[i] in ToCharset(t).value then Some(i + 1) else None
  {
    if t.TAny? && i < |s| { assert IsByte(s[i]); }
  }

  lemma AtLeastUnfolded(t: Tree, n: nat, s: seq<Char>, i: nat)
    requires i <= |s|
    ensures Match(AtLeastTree(t, n), s, i) ==
      match Match(t, s, i)
      case None => if n == 0 then Some(i) else None
      case Some(j) =>
        if n > 0 then Match(AtLeastTree(t, n - 1), s, j)
        else if j == i then Some(i) else Match(AtLeastTree(t, 0), s, j)
  {
  }

  lemma {:induction false} AtLeastMatch(t: Tree, p: Expr, n: nat, s: seq<Char>, i: nat)
    requires SameMeaning(t, p, s) && i <= |s|
    ensures Match(AtLeastTree(t, n), s, i) == AtLeast(p, n, s, i)
    decreases n + |s| - i
  {
    hide Meaning, Match, AtLeastTree;
    var m := Match(t, s, i);
    assert m == Meaning(p, s, i);
    AtLeastUnfolded(t, n, s, i);
    if m.None? {
    } else if n > 0 {
      AtLeastMatch(t, p, n - 1, s, m.value);
    } else if m.value != i {
      AtLeastMatch(t, p, 0, s, m.value);
    }
  }

  lemma AtMostUnfolded(t: Tree, n: nat, s: seq<Char>, i: nat)
    requires i <= |s| && n > 0
    ensures Match(AtMostTree(t, n), s, i) ==
      match Match(t, s, i)
      case None => Some(i)
      case Some(j) =>
        if n == 1 then Some(j)
        else var m := Match(AtMostTree(t, n - 1), s, j); if m.Some? then m else Some(i)
  {
    var m := Match(t, s, i);
    assert Match(TTrue, s, i) == Some(i);
    if n > 1 {
      var rest := AtMostTree(t, n - 1);
      assert Match(TSeq(t, rest), s, i) == if m.None? then None else Match(rest, s, m.value);
    }
  }

  lemma {:induction false} AtMostMatch(t: Tree, p: Expr, n: nat, s: seq<Char>, i: nat)
    requires SameMeaning(t, p, s) && i <= |s| && n > 0
    ensures Match(AtMostTree(t, n), s, i) == AtMost(p, n, s, i)
  {
    hide Meaning, Match, AtMostTree;
    var m := Match(t, s, i);
    assert m == Meaning(p, s, i);
    AtMostUnfolded(t, n, s, i);
    if m.Some? && n > 1 { AtMostMatch(t, p, n - 1, s, m.value); }
  }

  lemma {:induction false} RepetitionsWellFormed(t: Tree, n: nat)
    requires WellFormed(t)
    ensures !Nullable(t) ==> WellFormed(AtLeastTree(t, n))
    ensures n > 0 ==> WellFormed(AtMostTree(t, n))
  {
    if n > 0 { RepetitionsWellFormed(t, n - 1); }
  }

  /** Going back by the fixed length finds the one place where a match could have begun
      that ends here. */
  lemma BehindMatch(t: Tree, p: Expr, s: seq<Char>, i: nat)
    requires SameMeaning(t, p, s) && i <= |s|
    requires BehindTree(t).Ok?
    ensures Match(BehindTree(t).value, s, i) == Meaning(Behind(p), s, i)
  {
    hide Match, Meaning, BehindTree, FixedLenX;
    BehindTreeMatch(t, s, i);
    var n: nat := FixedLen(t);
    forall j: nat | j <= |s| ensures Meaning(p, s, j).Some? ==> Meaning(p, s, j).value == j + n {
      FixedLenSound(t, 0, s, j);
      assert Match(t, s, j) == Meaning(p, s, j);
    }
    BehindMeaning(p, n, s, i);
  }

  lemma BehindTreeMatch(t: Tree, s: seq<Char>, i: nat)
    requires BehindTree(t).Ok? && i <= |s|
    ensures
      var n := FixedLen(t);
      n > 0 && Match(BehindTree(t).value, s, i) == if n <= i && Match(t, s, i - n).Some? then Some(i) else None
  {
    hide FixedLenX;
  }

  lemma BehindMeaning(p: Expr, n: nat, s: seq<Char>, i: nat)
    requires i <= |s| && forall j: nat :: j <= |s| && Meaning(p, s, j).Some? ==> Meaning(p, s, j).value == j + n
    ensures Meaning(Behind(p), s, i) == if n <= i && Meaning(p, s, i - n).Some? then Some(i) else None
  {
    if n <= i && Meaning(p, s, i - n).Some? { assert Meaning(p, s, i - n) == Some(i); }
  }

  /** Whatever expression the builders accept, the tree is one the compiler may get. */
  lemma {:induction false} BuildWellFormed(e: Expr)
    requires Build(e).Ok?
    ensures WellFormed(Build(e).value)
  {
    match e
    case Literal(text) => LiteralMatch(text, [], 0);
    case Number(n) => AnyMatch(if n >= 0 then n else -n, [], 0);
    case Boolean(_) =>
    case OneOf(_) =>
    case Product(p, q) =>
      BuildWellFormed(p);
      BuildWellFormed(q);
    case Sum(p, q) =>
      BuildWellFormed(p);
      BuildWellFormed(q);
    case Difference(p, q) =>
      BuildWellFormed(p);
      BuildWellFormed(q);
    case Power(p, n) =>
      BuildWellFormed(p);
      RepetitionsWellFormed(Build(p).value, if n >= 0 then n else -n);
    case Unless(p) => BuildWellFormed(p);
    case Ahead(p) => BuildWellFormed(p);
    case Behind(p) => BuildWellFormed(p);
  }

  lemma LeafMeans(e: Expr, s: seq<Char>, i: nat)
    requires (e.Literal? || e.Number? || e.Boolean? || e.OneOf?) && i <= |s|
    ensures Build(e).Ok? && Match(Build(e).value, s, i) == Meaning(e, s, i)
  {
    hide LiteralTree, AnyTree, AtLeast, AtMost;
    match e
    case Literal(text) => LiteralMatch(text, s, i);
    case Number(n) => AnyMatch(if n >= 0 then n else -n, s, i);
    case _ =>
  }

  lemma PairMeans(e: Expr, s: seq<Char>, i: nat)
    requires (e.Product? || e.Sum? || e.Difference?) && Build(e).Ok? && i <= |s|
    requires Build(e.p).Ok? ==> SameMeaning(Build(e.p).value, e.p, s)
    requires Build(e.q).Ok? ==> SameMeaning(Build(e.q).value, e.q, s)
    ensures Match(Build(e).value, s, i) == Meaning(e, s, i)
  {
    hide AtLeast, AtMost, SeqTree, ChoiceTree, SubTree;
    var t1, t2 := Build(e.p).value, Build(e.q).value;
    match e
    case Product(_, _) => SeqTreeMatch(t1, t2, s, i);
    case Sum(_, _) => ChoiceTreeMatch(t1, t2, s, i);
    case Difference(_, _) => SubTreeMatch(t1, t2, s, i);
  }

  lemma OperatorMeans(e: Expr, s: seq<Char>, i: nat)
    requires (e.Power? || e.Unless? || e.Ahead? || e.Behind?) && Build(e).Ok? && i <= |s|
    requires Build(e.p).Ok? ==> SameMeaning(Build(e.p).value, e.p, s)
    ensures Match(Build(e).value, s, i) == Meaning(e, s, i)
  {
    hide AtLeast, AtMost, AtLeastTree, AtMostTree, BehindTree;
    var t := Build(e.p).value;
    match e
    case Power(p, n) => if n >= 0 { AtLeastMatch(t, p, n, s, i); } else { AtMostMatch(t, p, -n, s, i); }
    case Behind(p) => BehindMatch(t, p, s, i);
    case Unless(p) => assert Match(t, s, i) == Meaning(p, s, i);
    case Ahead(p) => assert Match(t, s, i) == Meaning(p, s, i);
    case _ =>
  }

  /** And it matches what the expression means. */
  lemma {:induction false} BuildMeans(e: Expr, s: seq<Char>)
    requires Build(e).Ok?
    ensures SameMeaning(Build(e).value, e, s)
  {
    hide Build, Meaning, Match;
    Operands(e);
    if e.Literal? || e.Number? || e.Boolean? || e.OneOf? {
      forall i: nat | i <= |s| ensures Match(Build(e).value, s, i) == Meaning(e, s, i) { LeafMeans(e, s, i); }
    } else {
      BuildMeans(e.p, s);
      if e.Product? || e.Sum? || e.Difference? {
        BuildMeans(e.q, s);
        forall i: nat | i <= |s| ensures Match(Build(e).value, s, i) == Meaning(e, s, i) { PairMeans(e, s, i); }
      } else {
        forall i: nat | i <= |s| ensures Match(Build(e).value, s, i) == Meaning(e, s, i) { OperatorMeans(e, s, i); }
      }
    }
  }

  /** An expression is only built if its operands are. */
  lemma Operands(e: Expr)
    requires Build(e).Ok?
    ensures !(e.Literal? || e.Number? || e.Boolean? || e.OneOf?) ==> Build(e.p).Ok?
    ensures e.Product? || e.Sum? || e.Difference? ==> Build(e.q).Ok?
  {
    hide LiteralTree, AnyTree, SeqTree, ChoiceTree, SubTree, StarTree, BehindTree;
  }

  /** A loop that the builders accept advances whenever its body matches, so it ends. */
  lemma AcceptedLoopsAdvance(p: Expr, n: nat, s: seq<Char>, i: nat)
    requires i <= |s|
    requires Build(Power(p, n)).Ok?
    ensures Meaning(p, s, i) != Some(i)
  {
    BuildWellFormed(p);
    BuildMeans(p, s);
    var t := Build(p).value;
    assert Match(t, s, i) == Meaning(p, s, i);
    if Match(t, s, i) == Some(i) { NullableSound(t, s, i); }
  }
}
