/** Pattern trees as lptree.c stores them, in one array in prefix order, and the pass
    that makes sequences and choices right associative in place. */
module LpegAssoc {
  import Sequences
  import opened Wrappers
  import opened LpegTree
  import opened LpegAnalysis

  datatype Tag = Char_ | Set_ | Any_ | True_ | False_ | Rep_ | Seq_ | Choice_ | Not_ | And_ | Behind_

  /** An array element: a tree node with its tag and its union field, which holds the
      distance to the second sibling or a counter, or a part of a charset buffer. */
  datatype Node = Node(tag: Tag, u: int) | Buffer(cs: Charset)

  /** Elements taken by the buffer of a charset. */
  const BUFFERSLOTS: nat := 4

  function TagOf(t: Tree): Tag {
    match t
    case TChar(_) => Char_
    case TSet(_) => Set_
    case TAny => Any_
    case TTrue => True_
    case TFalse => False_
    case TRep(_) => Rep_
    case TSeq(_, _) => Seq_
    case TChoice(_, _) => Choice_
    case TNot(_) => Not_
    case TAnd(_) => And_
    case TBehind(_, _) => Behind_
  }

  function NumSiblings(tag: Tag): nat {
    match tag
    case Seq_ => 2
    case Choice_ => 2
    case Rep_ => 1
    case Not_ => 1
    case And_ => 1
    case Behind_ => 1
    case _ => 0
  }

  function Size(t: Tree): (n: nat)
    ensures n > 0
  {
    match t
    case TSet(_) => 1 + BUFFERSLOTS
    case TRep(p) => 1 + Size(p)
    case TNot(p) => 1 + Size(p)
    case TAnd(p) => 1 + Size(p)
    case TBehind(_, p) => 1 + Size(p)
    case TSeq(p, q) => 1 + Size(p) + Size(q)
    case TChoice(p, q) => 1 + Size(p) + Size(q)
    case _ => 1
  }

  function Encode(t: Tree): (e: seq<Node>)
    ensures |e| == Size(t) && e[0].Node? && e[0].tag == TagOf(t)
  {
    match t
    case TChar(c) => [Node(Char_, c)]
    case TSet(cs) => [Node(Set_, 0)] + seq(BUFFERSLOTS, _ => Buffer(cs))
    case TAny => [Node(Any_, 0)]
    case TTrue => [Node(True_, 0)]
    case TFalse => [Node(False_, 0)]
    case TRep(p) => [Node(Rep_, 0)] + Encode(p)
    case TNot(p) => [Node(Not_, 0)] + Encode(p)
    case TAnd(p) => [Node(And_, 0)] + Encode(p)
    case TBehind(n, p) => [Node(Behind_, n)] + Encode(p)
    case TSeq(p, q) => [Node(Seq_, 1 + Size(p))] + Encode(p) + Encode(q)
    case TChoice(p, q) => [Node(Choice_, 1 + Size(p))] + Encode(p) + Encode(q)
  }

  predicate IsBinary(t: Tree) { t.TSeq? || t.TChoice? }

  /** `p op q`, where op is the operator of `t`. */
  function Like(t: Tree, p: Tree, q: Tree): (r: Tree)
    requires IsBinary(t)
    ensures IsBinary(r) && r.first == p && r.second == q && TagOf(r) == TagOf(t)
    ensures Size(r) == 1 + Size(p) + Size(q)
    ensures Encode(r) == [Node(TagOf(t), 1 + Size(p))] + Encode(p) + Encode(q)
  {
    if t.TSeq? then TSeq(p, q) else TChoice(p, q)
  }

  /** One step: (t11 op t12) op t2  =>  t11 op (t12 op t2) */
  function Rotate(t: Tree): (r: Tree)
    requires IsBinary(t) && TagOf(t.first) == TagOf(t)
    ensures IsBinary(r) && TagOf(r) == TagOf(t) && Size(r) == Size(t) && Size(r.first) < Size(t.first)
  {
    Like(t, t.first.first, Like(t, t.first.second, t.second))
  }

  /** `t` with its top operator rotated until its first operand has another one. */
  function Fixed(t: Tree): (r: Tree)
    requires IsBinary(t)
    ensures IsBinary(r) && TagOf(r) == TagOf(t) && TagOf(r.first) != TagOf(r)
    ensures Size(r) == Size(t)
    decreases Size(t.first)
  {
    hide Rotate, Size, TagOf;
    if TagOf(t.first) == TagOf(t) then Fixed(Rotate(t)) else t
  }

  /** The operands of the top operator of `t` from left to right. */
  function Operands(t: Tree, tag: Tag): seq<Tree> {
    if IsBinary(t) && TagOf(t) == tag then Operands(t.first, tag) + Operands(t.second, tag) else [t]
  }

  lemma RotateMatch(t: Tree, s: seq<Char>, i: nat)
    requires IsBinary(t) && TagOf(t.first) == TagOf(t)
    requires i <= |s|
    ensures Match(Rotate(t), s, i) == Match(t, s, i)
  {
  }

  /** Rotation changes neither the meaning nor the operands and their order. */
  lemma {:induction false} FixedMatch(t: Tree, s: seq<Char>, i: nat)
    requires IsBinary(t) && i <= |s|
    ensures Match(Fixed(t), s, i) == Match(t, s, i)
    decreases Size(t.first)
  {
    if TagOf(t.first) == TagOf(t) {
      RotateMatch(t, s, i);
      FixedMatch(Rotate(t), s, i);
    }
  }

  lemma {:induction false} FixedOperands(t: Tree)
    requires IsBinary(t)
    ensures Operands(Fixed(t), TagOf(t)) == Operands(t, TagOf(t))
    decreases Size(t.first)
  {
    if TagOf(t.first) == TagOf(t) {
      RotateOperands(t);
      FixedOperands(Rotate(t));
    }
  }

  lemma RotateOperands(t: Tree)
    requires IsBinary(t) && TagOf(t.first) == TagOf(t)
    ensures Operands(Rotate(t), TagOf(t)) == Operands(t, TagOf(t))
  {
    var tag := TagOf(t);
    var u := Like(t, t.first.second, t.second);
    OperandsOf(t);
    OperandsOf(t.first);
    OperandsOf(u);
    OperandsOf(Rotate(t));
    Sequences.Regroup(Operands(t.first.first, tag), Operands(t.first.second, tag), Operands(t.second, tag));
  }

  lemma OperandsOf(t: Tree)
    requires IsBinary(t)
    ensures Operands(t, TagOf(t)) == Operands(t.first, TagOf(t)) + Operands(t.second, TagOf(t))
  {
  }

  /** Every sequence and choice in `t` made right associative. */
  function FinalFixed(t: Tree): (r: Tree)
    ensures Size(r) == Size(t) && TagOf(r) == TagOf(t)
    decreases Size(t)
  {
    match t
    case TRep(p) => TRep(FinalFixed(p))
    case TNot(p) => TNot(FinalFixed(p))
    case TAnd(p) => TAnd(FinalFixed(p))
    case TBehind(n, p) => TBehind(n, FinalFixed(p))
    case TSeq(_, _) => var u := Fixed(t); TSeq(FinalFixed(u.first), FinalFixed(u.second))
    case TChoice(_, _) => var u := Fixed(t); TChoice(FinalFixed(u.first), FinalFixed(u.second))
    case _ => t
  }

  /** No sequence starts with a sequence and no choice with a choice. */
  predicate RightAssociative(t: Tree) {
    match t
    case TRep(p) => RightAssociative(p)
    case TNot(p) => RightAssociative(p)
    case TAnd(p) => RightAssociative(p)
    case TBehind(_, p) => RightAssociative(p)
    case TSeq(p, q) => !p.TSeq? && RightAssociative(p) && RightAssociative(q)
    case TChoice(p, q) => !p.TChoice? && RightAssociative(p) && RightAssociative(q)
    case _ => true
  }

  lemma {:induction false} FinalFixedRight(t: Tree)
    ensures RightAssociative(FinalFixed(t))
    decreases Size(t)
  {
    if IsBinary(t) {
      FinalFixedRight(Fixed(t).first);
      FinalFixedRight(Fixed(t).second);
    } else if t.TRep? || t.TNot? || t.TAnd? || t.TBehind? {
      FinalFixedRight(t.body);
    }
  }

  /** A loop whose body means the same means the same. */
  lemma {:induction false} RepMatch(p: Tree, q: Tree, s: seq<Char>, i: nat)
    requires i <= |s|
    requires forall j: nat :: j <= |s| ==> Match(p, s, j) == Match(q, s, j)
    ensures Match(TRep(p), s, i) == Match(TRep(q), s, i)
    decreases |s| - i
  {
    var m := Match(p, s, i);
    if m.Some? && m.value != i { RepMatch(p, q, s, m.value); }
  }

  /** The fixed tree means what the tree means. */
  lemma {:induction false} FinalFixedMatch(t: Tree, s: seq<Char>)
    ensures forall i: nat :: i <= |s| ==> Match(FinalFixed(t), s, i) == Match(t, s, i)
    decreases Size(t)
  {
    if IsBinary(t) {
      var u := Fixed(t);
      FinalFixedMatch(u.first, s);
      FinalFixedMatch(u.second, s);
      forall i: nat | i <= |s| ensures Match(FinalFixed(t), s, i) == Match(t, s, i) {
        FixedMatch(t, s, i);
        LikeMatch(u, FinalFixed(u.first), FinalFixed(u.second), s, i);
      }
    } else if t.TRep? || t.TNot? || t.TAnd? || t.TBehind? {
      var p := t.body;
      FinalFixedMatch(p, s);
      forall i: nat | i <= |s| ensures Match(FinalFixed(t), s, i) == Match(t, s, i) {
        if t.TRep? { RepMatch(p, FinalFixed(p), s, i); }
      }
    }
  }

  lemma LikeMatch(u: Tree, p: Tree, q: Tree, s: seq<Char>, i: nat)
    requires IsBinary(u) && i <= |s|
    requires forall j: nat :: j <= |s| ==> Match(p, s, j) == Match(u.first, s, j)
    requires forall j: nat :: j <= |s| ==> Match(q, s, j) == Match(u.second, s, j)
    ensures Match(Like(u, p, q), s, i) == Match(u, s, i)
  {
  }

  // What the builder guarantees survives the pass.

  lemma {:induction false} FixedAnalyses(t: Tree, pred: Pred, len: nat)
    requires IsBinary(t)
    ensures CheckAux(Fixed(t), pred) == CheckAux(t, pred)
    ensures FixedLenX(Fixed(t), len) == FixedLenX(t, len)
    ensures WellFormed(Fixed(t)) == WellFormed(t)
    decreases Size(t.first)
  {
    hide CheckAux, FixedLenX, WellFormed, Rotate, Size;
    if TagOf(t.first) == TagOf(t) {
      RotateAnalyses(t, pred, len);
      FixedAnalyses(Rotate(t), pred, len);
    }
  }

  lemma RotateAnalyses(t: Tree, pred: Pred, len: nat)
    requires IsBinary(t) && TagOf(t.first) == TagOf(t)
    ensures CheckAux(Rotate(t), pred) == CheckAux(t, pred)
    ensures FixedLenX(Rotate(t), len) == FixedLenX(t, len)
    ensures WellFormed(Rotate(t)) == WellFormed(t)
  {
  }

  lemma {:induction false} FinalFixedAnalyses(t: Tree, pred: Pred)
    ensures CheckAux(FinalFixed(t), pred) == CheckAux(t, pred)
    decreases Size(t)
  {
    if IsBinary(t) {
      FixedAnalyses(t, pred, 0);
      FinalFixedAnalyses(Fixed(t).first, pred);
      FinalFixedAnalyses(Fixed(t).second, pred);
    } else if t.TRep? || t.TNot? || t.TAnd? || t.TBehind? {
      FinalFixedAnalyses(t.body, pred);
    }
  }

  lemma {:induction false} FinalFixedLen(t: Tree, len: nat)
    ensures FixedLenX(FinalFixed(t), len) == FixedLenX(t, len)
    decreases Size(t)
  {
    if IsBinary(t) {
      var u := Fixed(t);
      FixedAnalyses(t, PEnullable, len);
      FinalFixedLen(u.first, len);
      if FixedLenX(u.first, len) >= 0 {
        FinalFixedLen(u.second, if t.TSeq? then FixedLenX(u.first, len) else len);
      }
    }
  }

  lemma {:induction false} FinalFixedWellFormed(t: Tree)
    requires WellFormed(t)
    ensures WellFormed(FinalFixed(t))
    decreases Size(t)
  {
    if IsBinary(t) {
      FixedAnalyses(t, PEnullable, 0);
      FinalFixedWellFormed(Fixed(t).first);
      FinalFixedWellFormed(Fixed(t).second);
    } else if t.TRep? || t.TNot? || t.TAnd? || t.TBehind? {
      FinalFixedWellFormed(t.body);
      FinalFixedAnalyses(t.body, PEnullable);
      FinalFixedLen(t.body, 0);
    }
  }

  // The pass on the array.

  /** The array `a` holds `t` at `i`. */
  ghost predicate Holds(a: seq<Node>, i: int, t: Tree) {
    0 <= i && i + Size(t) <= |a| && a[i..i + Size(t)] == Encode(t)
  }

  /** `a` with the elements from `i` replaced. */
  function Spliced(a: seq<Node>, i: int, e: seq<Node>): seq<Node>
    requires 0 <= i && i + |e| <= |a|
  {
    a[..i] + e + a[i + |e|..]
  }

  lemma HoldsBinary(a: seq<Node>, i: int, t: Tree)
    requires Holds(a, i, t) && IsBinary(t)
    ensures a[i] == Node(TagOf(t), 1 + Size(t.first))
    ensures Holds(a, i + 1, t.first) && Holds(a, i + 1 + Size(t.first), t.second)
  {
    hide Encode, Size, TagOf;
    LikeSelf(t);
    EncodeSize(t.first);
    EncodeSize(t.second);
    SplitThree(a, i, Node(TagOf(t), 1 + Size(t.first)), Encode(t.first), Encode(t.second));
  }

  lemma SplitThree(a: seq<Node>, i: nat, n: Node, p: seq<Node>, q: seq<Node>)
    requires i + 1 + |p| + |q| <= |a| && a[i..i + 1 + |p| + |q|] == [n] + p + q
    ensures a[i] == n && a[i + 1..i + 1 + |p|] == p && a[i + 1 + |p|..i + 1 + |p| + |q|] == q
  {
    var e := a[i..i + 1 + |p| + |q|];
    forall k | 0 <= k < |e| ensures a[i + k] == e[k] {}
    assert e[0] == n;
    forall k | 0 <= k < |p| ensures a[i + 1 + k] == p[k] { assert a[i + (1 + k)] == e[1 + k]; }
    forall k | 0 <= k < |q| ensures a[i + 1 + |p| + k] == q[k] { assert a[i + (1 + |p| + k)] == e[1 + |p| + k]; }
  }

  lemma HoldsUnary(a: seq<Node>, i: int, t: Tree)
    requires Holds(a, i, t) && (t.TRep? || t.TNot? || t.TAnd? || t.TBehind?)
    ensures Holds(a, i + 1, t.body)
  {
    var e := Encode(t);
    assert e[1..] == Encode(t.body);
    assert a[i + 1..i + Size(t)] == a[i..i + Size(t)][1..];
  }

  lemma HoldsTag(a: seq<Node>, i: int, t: Tree)
    requires Holds(a, i, t)
    ensures i < |a| && a[i].Node? && a[i].tag == TagOf(t)
  {
    assert a[i] == a[i..i + Size(t)][0];
  }

  /** Copies `n` elements one place to the left. */
  method MoveLeft(a: array<Node>, to: nat, n: nat)
    requires to + 1 + n <= a.Length
    modifies a
    ensures a[..] == Spliced(old(a[..]), to, old(a[to + 1..to + 1 + n]))
  {
    for k := 0 to n
      invariant forall j :: 0 <= j < a.Length ==> a[j] == if to <= j < to + k then old(a[j + 1]) else old(a[j])
    {
      a[to + k] := a[to + k + 1];
    }
  }

  /** The three writes of one rotation: the first operand of the first operand moves
      left, and the two operator nodes get their new distances. */
  lemma RotateArray(b: seq<Node>, i: nat, t: Tree)
    requires Holds(b, i, t) && IsBinary(t) && TagOf(t.first) == TagOf(t)
    ensures IsBinary(t.first)
    ensures
      var n11, n12 := Size(t.first.first), Size(t.first.second);
      && i + 2 + n11 <= |b|
      && Spliced(b, i + 1, b[i + 2..i + 2 + n11])[i := Node(TagOf(t), n11 + 1)][i + 1 + n11 := Node(TagOf(t), n12 + 1)]
          == Spliced(b, i, Encode(Rotate(t)))
  {
    hide Encode, Size, Fixed, TagOf, Spliced, Rotate, Like, Holds;
    SameTagBinary(t);
    EncodeSize(t);
    EncodeSize(Rotate(t));
    RotateSize(t);
    RotateEncode(t);
    var n11, n12 := Size(t.first.first), Size(t.first.second);
    var x, y, z := Encode(t.first.first), Encode(t.first.second), Encode(t.second);
    var n1, n2 := Node(TagOf(t), n11 + 1), Node(TagOf(t), n12 + 1);
    LikeSelf(t);
    LikeSelf(t.first);
    HoldsBinary(b, i, t);
    HoldsBinary(b, i + 1, t.first);
    HoldsSlice(b, i + 2, t.first.first);
    HoldsSlice(b, i + 2 + n11, t.first.second);
    HoldsSlice(b, i + 1 + Size(t.first), t.second);
    RotateSeq(b, i, n1, n2, x, y, z);
  }

  /** The same on the elements alone: two operator nodes and three operands. */
  lemma RotateSeq(b: seq<Node>, i: nat, n1: Node, n2: Node, x: seq<Node>, y: seq<Node>, z: seq<Node>)
    requires i + 2 + |x| + |y| + |z| <= |b| && b[i + 2..i + 2 + |x|] == x
    requires b[i + 2 + |x|..i + 2 + |x| + |y|] == y
    requires b[i + 2 + |x| + |y|..i + 2 + |x| + |y| + |z|] == z
    ensures Spliced(b, i + 1, x)[i := n1][i + 1 + |x| := n2] == Spliced(b, i, [n1] + x + ([n2] + y + z))
  {
    hide Spliced;
    var e := [n1] + x + ([n2] + y + z);
    var rest := b[i + |e|..];
    ThreeParts(b, i + 2 + |x|, y, z, rest);
    ShiftSeq(b, i, x, n1, n2);
    Regroup(b[..i], n1, n2, x, y, z, rest);
    SplicedIs(b, i, e);
  }

  lemma ThreeParts(b: seq<Node>, i: nat, y: seq<Node>, z: seq<Node>, rest: seq<Node>)
    requires i + |y| + |z| <= |b| && b[i..i + |y|] == y && b[i + |y|..i + |y| + |z|] == z && rest == b[i + |y| + |z|..]
    ensures b[i..] == y + (z + rest)
  {
  }

  lemma RotateEncode(t: Tree)
    requires IsBinary(t) && TagOf(t.first) == TagOf(t)
    ensures IsBinary(t.first)
    ensures Encode(Rotate(t)) == [Node(TagOf(t), 1 + Size(t.first.first))] + Encode(t.first.first)
      + ([Node(TagOf(t), 1 + Size(t.first.second))] + Encode(t.first.second) + Encode(t.second))
  {
    hide Encode, Size, Like;
  }

  lemma HoldsSlice(a: seq<Node>, i: int, t: Tree)
    requires Holds(a, i, t)
    ensures 0 <= i && i + Size(t) <= |a| && a[i..i + Size(t)] == Encode(t)
  {
  }

  lemma SplicedIs(a: seq<Node>, i: nat, e: seq<Node>)
    requires i + |e| <= |a|
    ensures Spliced(a, i, e) == a[..i] + e + a[i + |e|..]
  {
  }

  lemma Regroup(p: seq<Node>, n1: Node, n2: Node, x: seq<Node>, y: seq<Node>, z: seq<Node>, rest: seq<Node>)
    ensures p + [n1] + x + [n2] + (y + (z + rest)) == p + ([n1] + x + ([n2] + y + z)) + rest
  {
  }

  lemma ShiftSeq(b: seq<Node>, i: nat, x: seq<Node>, n1: Node, n2: Node)
    requires i + 2 + |x| <= |b| && b[i + 2..i + 2 + |x|] == x
    ensures Spliced(b, i + 1, x)[i := n1][i + 1 + |x| := n2] == b[..i] + [n1] + x + [n2] + b[i + 2 + |x|..]
  {
  }

  lemma SameTagBinary(t: Tree)
    requires IsBinary(t) && TagOf(t.first) == TagOf(t)
    ensures IsBinary(t.first)
  {
  }

  lemma LikeSelf(t: Tree)
    requires IsBinary(t)
    ensures Like(t, t.first, t.second) == t
    ensures Size(t) == 1 + Size(t.first) + Size(t.second)
  {
  }

  lemma SplicedHolds(a: seq<Node>, i: nat, t: Tree)
    requires i + Size(t) <= |a|
    ensures Holds(Spliced(a, i, Encode(t)), i, t)
  {
  }

  lemma SplicedBefore(a: seq<Node>, i: nat, e: seq<Node>, k: nat)
    requires i + |e| <= |a| && k < i
    ensures |Spliced(a, i, e)| == |a| && Spliced(a, i, e)[k] == a[k]
  {
  }

  lemma SplicedTwice(a: seq<Node>, i: nat, e: seq<Node>, f: seq<Node>)
    requires i + |e| <= |a| && |e| == |f|
    ensures Spliced(Spliced(a, i, e), i, f) == Spliced(a, i, f)
  {
  }

  lemma SplicedSame(a: seq<Node>, i: nat, t: Tree)
    requires Holds(a, i, t)
    ensures Spliced(a, i, Encode(t)) == a
  {
    hide Encode, Spliced, Size;
    EncodeSize(t);
    SplicedSelf(a, i, Encode(t));
  }

  lemma SplicedSelf(a: seq<Node>, i: nat, e: seq<Node>)
    requires i + |e| <= |a| && a[i..i + |e|] == e
    ensures Spliced(a, i, e) == a
  {
    assert a == a[..i] + a[i..i + |e|] + a[i + |e|..];
  }

  lemma EncodeSize(t: Tree)
    ensures |Encode(t)| == Size(t)
  {
  }

  lemma RotateSize(t: Tree)
    requires IsBinary(t) && TagOf(t.first) == TagOf(t)
    ensures IsBinary(Rotate(t)) && TagOf(Rotate(t)) == TagOf(t)
    ensures Size(Rotate(t)) == Size(t) && Size(Rotate(t).first) < Size(t.first)
    ensures Fixed(Rotate(t)) == Fixed(t)
  {
  }

  lemma HoldsNode(a: seq<Node>, i: int, t: Tree)
    requires Holds(a, i, t) && IsBinary(t)
    ensures 0 <= i && i + 1 < i + Size(t) <= |a|
    ensures a[i].Node? && a[i].tag == TagOf(t)
    ensures a[i + 1].Node? && a[i + 1].tag == TagOf(t.first)
  {
    hide Holds, Encode;
    HoldsTag(a, i, t);
    HoldsBinary(a, i, t);
    HoldsTag(a, i + 1, t.first);
    HoldsTag(a, i + 1 + Size(t.first), t.second);
    HoldsIn(a, i, t);
  }

  lemma HoldsIn(a: seq<Node>, i: int, t: Tree)
    requires Holds(a, i, t)
    ensures 0 <= i && i + Size(t) <= |a|
  {
  }

  /** The body of the loop of `correctassociativity`. */
  method RotateInPlace(a: array<Node>, i: nat, ghost t: Tree)
    requires Holds(a[..], i, t) && IsBinary(t) && TagOf(t.first) == TagOf(t)
    modifies a
    ensures a[..] == Spliced(old(a[..]), i, Encode(Rotate(t)))
  {
    hide Encode, Size, Holds, Spliced, Rotate;
    ghost var b := a[..];
    SameTagBinary(t);
    HoldsNode(b, i, t);
    HoldsBinary(b, i, t);
    HoldsBinary(b, i + 1, t.first);
    LikeSelf(t);
    LikeSelf(t.first);
    var n1size := a[i].u - 1;
    var n11size := a[i + 1].u - 1;
    var n12size := n1size - n11size - 1;
    RotateArray(b, i, t);
    MoveLeft(a, i + 1, n11size);
    ghost var c := a[..];
    SplicedBefore(b, i + 1, b[i + 2..i + 2 + n11size], i);
    a[i] := a[i].(u := n11size + 1);
    a[i + a[i].u] := Node(a[i].tag, n12size + 1);
    assert a[..] == c[i := Node(TagOf(t), n11size + 1)][i + 1 + n11size := Node(TagOf(t), n12size + 1)];
  }

  /** `correctassociativity`: it leaves the encoding of the fixed tree in place of that
      of `t` and changes nothing else. */
  method CorrectAssociativity(a: array<Node>, i: nat, ghost t: Tree)
    requires Holds(a[..], i, t) && IsBinary(t)
    modifies a
    ensures a[..] == Spliced(old(a[..]), i, Encode(Fixed(t)))
  {
    hide Encode, Size, Holds, Spliced, Rotate;
    ghost var cur := t;
    SplicedSame(a[..], i, t);
    HoldsNode(a[..], i, t);
    while a[i + 1].tag == a[i].tag
      invariant IsBinary(cur) && Size(cur) == Size(t) && Fixed(cur) == Fixed(t)
      invariant i + 1 < i + Size(t) <= a.Length
      invariant Holds(a[..], i, cur)
      invariant a[..] == Spliced(old(a[..]), i, Encode(cur))
      invariant a[i].Node? && a[i + 1].Node?
      invariant a[i].tag == TagOf(cur) && a[i + 1].tag == TagOf(cur.first)
      decreases Size(cur.first)
    {
      ghost var b := a[..];
      RotateInPlace(a, i, cur);
      RotateSize(cur);
      EncodeSize(cur);
      EncodeSize(Rotate(cur));
      SplicedTwice(old(a[..]), i, Encode(cur), Encode(Rotate(cur)));
      cur := Rotate(cur);
      SplicedHolds(b, i, cur);
      HoldsNode(a[..], i, cur);
    }
  }

  lemma FinalFixedUnfold(t: Tree)
    ensures Size(FinalFixed(t)) == Size(t)
    ensures IsBinary(t) ==>
      var u := Fixed(t);
      && IsBinary(u) && Size(u) == Size(t) && TagOf(u) == TagOf(t)
      && FinalFixed(t) == Like(u, FinalFixed(u.first), FinalFixed(u.second))
    ensures !IsBinary(t) ==> TagOf(t) != Seq_ && TagOf(t) != Choice_
    ensures !IsBinary(t) && NumSiblings(TagOf(t)) != 1 ==> FinalFixed(t) == t
  {
    hide Fixed, Encode;
  }

  lemma FinalFixedUnary(t: Tree)
    requires NumSiblings(TagOf(t)) == 1
    ensures t.TRep? || t.TNot? || t.TAnd? || t.TBehind?
    ensures Size(t.body) < Size(t) && Size(FinalFixed(t.body)) == Size(t.body)
    ensures Encode(FinalFixed(t)) == Encode(t)[..1] + Encode(FinalFixed(t.body))
  {
    hide Fixed;
  }

  /** Replacing a part of a part. */
  lemma InnerSplice(b: seq<Node>, i: nat, e: seq<Node>, k: nat, f: seq<Node>)
    requires i + |e| <= |b| && b[i..i + |e|] == e && k + |f| <= |e|
    ensures Spliced(b, i + k, f) == Spliced(b, i, e[..k] + f + e[k + |f|..])
  {
    assert b[..i + k] == b[..i] + e[..k];
    assert b[i + k + |f|..] == e[k + |f|..] + b[i + |e|..];
  }

  lemma UnaryFixed(b: seq<Node>, i: nat, t: Tree)
    requires Holds(b, i, t) && NumSiblings(TagOf(t)) == 1
    ensures t.TRep? || t.TNot? || t.TAnd? || t.TBehind?
    ensures i + 1 + Size(t.body) <= |b| && Size(FinalFixed(t.body)) == Size(t.body)
    ensures Spliced(b, i + 1, Encode(FinalFixed(t.body))) == Spliced(b, i, Encode(FinalFixed(t)))
  {
    UnarySize(t);
    hide Encode, FinalFixed, Spliced, Size, TagOf;
    FinalFixedUnary(t);
    EncodeSize(t);
    EncodeSize(FinalFixed(t));
    EncodeSize(FinalFixed(t.body));
    var e, body, f := Encode(t), Encode(FinalFixed(t.body)), Encode(FinalFixed(t));
    BodySpliced(b, i, e, body, f);
  }

  lemma BodySpliced(b: seq<Node>, i: nat, e: seq<Node>, body: seq<Node>, f: seq<Node>)
    requires |e| == 1 + |body| && i + |e| <= |b| && b[i..i + |e|] == e && f == e[..1] + body
    ensures Spliced(b, i + 1, body) == Spliced(b, i, f)
  {
    hide Spliced;
    InnerSplice(b, i, e, 1, body);
    BodyReplaced(e, body);
  }

  lemma FirstFixed(b: seq<Node>, i: nat, u: Tree, p: Tree)
    requires Holds(b, i, u) && IsBinary(u) && Size(p) == Size(u.first)
    ensures i + 1 + Size(p) <= |b|
    ensures Spliced(b, i + 1, Encode(p)) == Spliced(b, i, Encode(Like(u, p, u.second)))
    ensures Holds(Spliced(b, i + 1, Encode(p)), i, Like(u, p, u.second))
  {
    hide Encode, Spliced, Size, TagOf;
    LikeSelf(u);
    EncodeSize(u);
    EncodeSize(p);
    EncodeSize(u.second);
    EncodeSize(u.first);
    var v := Like(u, p, u.second);
    var e, f := Encode(u), Encode(v);
    FirstSpliced(b, i, Node(TagOf(u), 1 + Size(p)), Encode(u.first), Encode(p), Encode(u.second), e, f);
    hide Like, Holds;
    SplicedHolds(b, i, v);
  }

  lemma FirstSpliced(b: seq<Node>, i: nat, n: Node, p0: seq<Node>, p: seq<Node>, q: seq<Node>, e: seq<Node>, f: seq<Node>)
    requires |p| == |p0| && e == [n] + p0 + q && f == [n] + p + q
    requires i + |e| <= |b| && b[i..i + |e|] == e
    ensures Spliced(b, i + 1, p) == Spliced(b, i, f)
  {
    hide Spliced;
    InnerSplice(b, i, e, 1, p);
    assert e[..1] == [n] && e[1 + |p|..] == q;
  }

  lemma LastReplaced(n: Node, p: seq<Node>, q0: seq<Node>, q: seq<Node>)
    requires |q| == |q0|
    ensures
      var e := [n] + p + q0;
      e[..1 + |p|] == [n] + p && e[..1 + |p|] + q + e[1 + |p| + |q|..] == [n] + p + q
  {
  }

  lemma UnarySize(t: Tree)
    requires NumSiblings(TagOf(t)) == 1
    ensures (t.TRep? || t.TNot? || t.TAnd? || t.TBehind?) && Size(t) == 1 + Size(t.body)
  {
  }

  lemma BodyReplaced(e: seq<Node>, body: seq<Node>)
    requires |e| == 1 + |body|
    ensures e[..1] + body + e[1 + |body|..] == e[..1] + body
  {
  }

  lemma SecondFits(b: seq<Node>, i: nat, u: Tree, p: Tree, q: Tree)
    requires Holds(b, i, u) && IsBinary(u) && Size(p) == Size(u.first) && Size(q) == Size(u.second)
    ensures i + Size(u) <= |b| && Size(u) == 1 + Size(p) + Size(q)
  {
    HoldsIn(b, i, u);
    LikeSelf(u);
  }

  lemma SecondFixed(b: seq<Node>, i: nat, u: Tree, p: Tree, q: Tree)
    requires IsBinary(u) && i + 1 + Size(p) + Size(q) <= |b| && Size(q) == Size(u.second)
    ensures
      var c := Spliced(b, i, Encode(Like(u, p, u.second)));
      && |c| == |b|
      && Spliced(c, i + 1 + Size(p), Encode(q)) == Spliced(b, i, Encode(Like(u, p, q)))
  {
    hide Encode, Spliced, Size, TagOf;
    var e, f := Encode(Like(u, p, u.second)), Encode(Like(u, p, q));
    LastSpliced(b, i, Node(TagOf(u), 1 + Size(p)), Encode(p), Encode(u.second), Encode(q), e, f);
  }

  lemma LastSpliced(b: seq<Node>, i: nat, n: Node, p: seq<Node>, q0: seq<Node>, q: seq<Node>, e: seq<Node>, f: seq<Node>)
    requires |q| == |q0| && i + 1 + |p| + |q| <= |b| && e == [n] + p + q0 && f == [n] + p + q
    ensures
      var c := Spliced(b, i, e);
      |c| == |b| && Spliced(c, i + 1 + |p|, q) == Spliced(b, i, f)
  {
    hide Spliced;
    SplicedLength(b, i, e);
    InnerSplice(Spliced(b, i, e), i, e, 1 + |p|, q);
    LastReplaced(n, p, q0, q);
    SplicedTwice(b, i, e, f);
  }

  lemma SplicedLength(a: seq<Node>, i: nat, e: seq<Node>)
    requires i + |e| <= |a|
    ensures |Spliced(a, i, e)| == |a| && Spliced(a, i, e)[i..i + |e|] == e
  {
  }

  /** The final pass over a tree: fix its top operator, then its siblings. */
  method FinalFix(a: array<Node>, i: nat, ghost t: Tree)
    requires Holds(a[..], i, t)
    modifies a
    ensures a[..] == Spliced(old(a[..]), i, Encode(FinalFixed(t)))
    decreases Size(t), 1
  {
    hide Encode, Holds, Spliced, FinalFixed, Fixed;
    FinalFixedUnfold(t);
    HoldsTag(a[..], i, t);
    ghost var u := t;
    if a[i].tag == Seq_ || a[i].tag == Choice_ {
      CorrectAssociativity(a, i, t);
      u := Fixed(t);
      HoldsIn(old(a[..]), i, t);
      SplicedHolds(old(a[..]), i, u);
    } else {
      SplicedSame(a[..], i, t);
    }
    HoldsTag(a[..], i, u);
    if NumSiblings(a[i].tag) == 1 {
      ghost var b := a[..];
      HoldsUnary(b, i, u);
      FinalFix(a, i + 1, u.body);
      UnaryFixed(b, i, t);
    } else if NumSiblings(a[i].tag) == 2 {
      FinalFixBoth(a, i, u);
      EncodeSize(u);
      EncodeSize(FinalFixed(t));
      HoldsIn(old(a[..]), i, t);
      SplicedTwice(old(a[..]), i, Encode(u), Encode(FinalFixed(t)));
    }
  }

  method FinalFixBoth(a: array<Node>, i: nat, ghost u: Tree)
    requires Holds(a[..], i, u) && IsBinary(u)
    modifies a
    ensures a[..] == Spliced(old(a[..]), i, Encode(Like(u, FinalFixed(u.first), FinalFixed(u.second))))
    decreases Size(u), 0
  {
    hide Encode, Holds, Spliced, FinalFixed, Size, Like, TagOf;
    ghost var b := a[..];
    HoldsIn(b, i, u);
    ghost var p, q := FinalFixed(u.first), FinalFixed(u.second);
    HoldsBinary(b, i, u);
    LikeSelf(u);
    FinalFix(a, i + 1, u.first);
    FirstFixed(b, i, u, p);
    ghost var c := a[..];
    HoldsBinary(c, i, Like(u, p, u.second));
    HoldsTag(c, i, Like(u, p, u.second));
    FinalFix(a, i + a[i].u, u.second);
    SecondFits(b, i, u, p, q);
    SecondFixed(b, i, u, p, q);
  }
}
