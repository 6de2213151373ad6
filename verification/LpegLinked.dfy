/** Generated code is well linked: labels lead to instructions, and chains of jumps
    end. */
module LpegLinked {
  import opened Wrappers
  import opened LpegTree
  import opened LpegAnalysis
  import opened LpegVM
  import opened LpegGen
  import opened LpegLayout
  import opened LpegCorrect
  import opened LpegCodegen
  import opened LpegJumps

  ghost predicate OpOrEnd(c: seq<Slot>, q: int) { 0 <= q <= |c| && (q < |c| ==> c[q].Op?) }

  /** A jump goes forward, or back to an instruction that is not a jump or goes
      forward past it. */
  ghost predicate JmpFine(c: seq<Slot>, q: int, t: int) {
    t > q || (IsJmp(c, t) ==> Target(c, t) > q)
  }

  ghost predicate FragAt(c: seq<Slot>, q: int)
    requires IsInst(c, q)
  {
    && LaidAt(c, q)
    && (HasOffset(c[q].inst) ==> OpOrEnd(c, Target(c, q)))
    && (c[q].inst.IJmp? ==> JmpFine(c, q, Target(c, q)))
  }

  /** Between `a` and `b` everything is well linked. */
  ghost predicate FragIn(c: seq<Slot>, a: int, b: int) {
    forall q :: a <= q < b && IsInst(c, q) ==> FragAt(c, q)
  }

  /** A code fragment that may also jump to its end. */
  ghost predicate Frag(c: seq<Slot>) { OpOrEnd(c, 0) && FragIn(c, 0, |c|) }

  lemma Boundary(code: seq<Slot>, a: int, f: seq<Slot>)
    requires Embedded(code, a, f) && OpOrEnd(f, 0) && OpOrEnd(code, a + |f|)
    ensures OpOrEnd(code, a)
  {
    if |f| > 0 { assert code[a..a + |f|][0] == code[a]; }
  }

  lemma InstBoundary(code: seq<Slot>, a: int, i: Inst)
    requires Embedded(code, a, Emit(i))
    ensures OpOrEnd(code, a)
  {
    assert code[a..a + |Emit(i)|][0] == code[a];
  }

  lemma Lift(code: seq<Slot>, a: int, f: seq<Slot>)
    requires Embedded(code, a, f) && Frag(f) && OpOrEnd(code, a + |f|)
    ensures FragIn(code, a, a + |f|)
  {
    assert forall q :: a <= q < a + |f| ==> code[q] == f[q - a] by {
      forall q | a <= q < a + |f| ensures code[q] == f[q - a] { assert code[a..a + |f|][q - a] == code[q]; }
    }
    forall q | a <= q < a + |f| && IsInst(code, q) ensures FragAt(code, q) {
      assert FragAt(f, q - a);
    }
  }

  lemma HeadLift(code: seq<Slot>, a: int, i: Inst)
    requires Embedded(code, a, Emit(i)) && OpOrEnd(code, a + SizeI(i))
    requires HasOffset(i) ==> OpOrEnd(code, a + Offset(i))
    requires i.IJmp? ==> JmpFine(code, a, a + i.offset)
    ensures FragIn(code, a, a + SizeI(i))
  {
    hide OpOrEnd, JmpFine;
    var e := Emit(i);
    assert forall q :: a <= q < a + |e| ==> code[q] == e[q - a] by {
      forall q | a <= q < a + |e| ensures code[q] == e[q - a] { assert code[a..a + |e|][q - a] == code[q]; }
    }
    LaidHead(code, a, i);
  }

  lemma LaidHead(code: seq<Slot>, a: int, i: Inst)
    requires Embedded(code, a, Emit(i)) && OpOrEnd(code, a + SizeI(i))
    ensures IsInst(code, a) && code[a].inst == i && LaidAt(code, a)
    ensures forall k :: a < k < a + SizeI(i) ==> code[k] == Operand
  {
    var e := Emit(i);
    forall q | a <= q < a + |e| ensures code[q] == e[q - a] { assert code[a..a + |e|][q - a] == code[q]; }
  }

  lemma Join(c: seq<Slot>, a: int, b: int, d: int)
    requires FragIn(c, a, b) && FragIn(c, b, d)
    ensures FragIn(c, a, d)
  {
  }

  lemma Whole(c: seq<Slot>)
    ensures Embedded(c, 0, c) && OpOrEnd(c, |c|)
  {
  }

  /** The test in front of a shape. */
  lemma TestLift(code: seq<Slot>, a: int, f: First, offset: int)
    requires Embedded(code, a, GenTest(f, offset))
    requires OpOrEnd(code, a + TestSize(f)) && OpOrEnd(code, a + offset)
    requires offset > 0
    ensures FragIn(code, a, a + TestSize(f)) && OpOrEnd(code, a)
  {
    hide Embedded, Emit, OpOrEnd;
    if !f.e {
      var i := TestInst(f.cs, offset);
      InstBoundary(code, a, i);
      HeadLift(code, a, i);
    }
  }

  lemma SingleFrag(i: Inst)
    requires !HasOffset(i)
    ensures Frag(Emit(i))
  {
    hide Embedded, Emit, OpOrEnd, FragIn;
    Whole(Emit(i));
    InstBoundary(Emit(i), 0, i);
    HeadLift(Emit(i), 0, i);
  }

  lemma SeqFrag(f: seq<Slot>, g: seq<Slot>)
    requires Frag(f) && Frag(g)
    ensures Frag(f + g)
  {
    hide Embedded, OpOrEnd, FragIn;
    var c := f + g;
    Whole(c);
    Parts(c, 0, f, g);
    Boundary(c, |f|, g);
    Boundary(c, 0, f);
    Lift(c, 0, f);
    Lift(c, |f|, g);
    Join(c, 0, |f|, |c|);
  }

  lemma ChoiceTestFrag(f: First, c1: seq<Slot>, c2: seq<Slot>, emptyq: bool)
    requires Frag(c1) && Frag(c2) && !f.e
    ensures Frag(ChoiceTestCode(f, c1, c2, emptyq))
  {
    hide Embedded, OpOrEnd, FragIn, Emit, GenTest, ChoiceTestCode, TestSize;
    var c := ChoiceTestCode(f, c1, c2, emptyq);
    var jmp := if emptyq then 0 else 2;
    var t := TestSize(f);
    Whole(c);
    ChoiceTestParts(f, c1, c2, emptyq, c, 0);
    TestPositive(f);
    Boundary(c, t + |c1| + jmp, c2);
    Lift(c, t + |c1| + jmp, c2);
    if !emptyq {
      InstBoundary(c, t + |c1|, IJmp(2 + |c2|));
      HeadLift(c, t + |c1|, IJmp(2 + |c2|));
      Join(c, t + |c1|, t + |c1| + 2, |c|);
    }
    Boundary(c, t, c1);
    Lift(c, t, c1);
    TestLift(c, 0, f, t + |c1| + jmp);
    Join(c, t, t + |c1|, |c|);
    Join(c, 0, t, |c|);
  }

  lemma TestPositive(f: First)
    ensures !f.e ==> TestSize(f) >= 2
  {
  }

  lemma ChoiceFrag(f: First, c1: seq<Slot>, c2: seq<Slot>)
    requires Frag(c1) && Frag(c2)
    ensures Frag(ChoiceCode(f, c1, c2))
  {
    hide Embedded, OpOrEnd, FragIn, Emit, GenTest, ChoiceCode, TestSize;
    var c := ChoiceCode(f, c1, c2);
    var k := 2 + |c1| + 2;
    var t := TestSize(f);
    Whole(c);
    ChoiceParts(f, c1, c2, c, 0);
    Boundary(c, t + k, c2);
    Lift(c, t + k, c2);
    InstBoundary(c, t + 2 + |c1|, ICommit(2 + |c2|));
    HeadLift(c, t + 2 + |c1|, ICommit(2 + |c2|));
    Boundary(c, t + 2, c1);
    Lift(c, t + 2, c1);
    InstBoundary(c, t, IChoice(k));
    HeadLift(c, t, IChoice(k));
    TestLift(c, 0, f, t + k);
    Join(c, t + 2 + |c1|, t + k, |c|);
    Join(c, t + 2, t + 2 + |c1|, |c|);
    Join(c, t, t + 2, |c|);
    Join(c, 0, t, |c|);
  }

  lemma ReuseFrag(c1: seq<Slot>)
    requires Frag(c1)
    ensures Frag(ReuseCode(c1))
  {
    hide Embedded, OpOrEnd, FragIn, Emit;
    var c := ReuseCode(c1);
    Whole(c);
    Parts(c, 0, Emit(IPartialCommit(2)), c1);
    Boundary(c, 2, c1);
    Lift(c, 2, c1);
    InstBoundary(c, 0, IPartialCommit(2));
    HeadLift(c, 0, IPartialCommit(2));
    Join(c, 0, 2, |c|);
  }

  lemma LoopTestFrag(f: First, c1: seq<Slot>)
    requires Frag(c1) && !f.e
    ensures Frag(LoopTestCode(f, c1))
  {
    hide Embedded, OpOrEnd, FragIn, Emit, GenTest, LoopTestCode, TestSize, JmpFine;
    var c := LoopTestCode(f, c1);
    var t := TestSize(f);
    Whole(c);
    LoopTestParts(f, c1, c, 0);
    TestPositive(f);
    InstBoundary(c, t + |c1|, IJmp(-(t + |c1|)));
    Boundary(c, t, c1);
    Lift(c, t, c1);
    TestLift(c, 0, f, t + |c1| + 2);
    BackFine(f, c, t + |c1|);
    HeadLift(c, t + |c1|, IJmp(-(t + |c1|)));
    Join(c, t, t + |c1|, |c|);
    Join(c, 0, t, |c|);
  }

  /** The jump back to the test of a loop: if the test is a jump, it leaves the loop. */
  lemma BackFine(f: First, c: seq<Slot>, q: int)
    requires !f.e && q >= 0
    requires Embedded(c, 0, GenTest(f, q + 2))
    ensures JmpFine(c, q, 0)
  {
    assert c[0..TestSize(f)][0] == c[0];
  }

  lemma LoopFrag(f: First, opt: bool, c1: seq<Slot>)
    requires Frag(c1)
    ensures Frag(LoopCode(f, opt, c1))
  {
    hide Embedded, OpOrEnd, FragIn, Emit, GenTest, LoopCode, TestSize;
    var c := LoopCode(f, opt, c1);
    var k := 2 + |c1| + 2;
    var t := TestSize(f);
    var ch := if opt then IPartialCommit(2) else IChoice(k);
    Whole(c);
    LoopParts(f, opt, c1, c, 0);
    InstBoundary(c, t + 2 + |c1|, IPartialCommit(-|c1|));
    Boundary(c, t + 2, c1);
    HeadLift(c, t + 2 + |c1|, IPartialCommit(-|c1|));
    Lift(c, t + 2, c1);
    InstBoundary(c, t, ch);
    HeadLift(c, t, ch);
    TestLift(c, 0, f, t + k);
    Join(c, t + 2, t + 2 + |c1|, |c|);
    Join(c, t, t + 2, |c|);
    Join(c, 0, t, |c|);
  }

  lemma NotTestFrag(f: First)
    ensures Frag(NotTestCode(f))
  {
    hide Embedded, OpOrEnd, FragIn, Emit, GenTest, NotTestCode, TestSize;
    var c := NotTestCode(f);
    var t := TestSize(f);
    Whole(c);
    NotTestParts(f, c, 0);
    InstBoundary(c, t, IFail);
    HeadLift(c, t, IFail);
    TestLift(c, 0, f, t + 1);
    Join(c, 0, t, |c|);
  }

  lemma NotFrag(f: First, c1: seq<Slot>)
    requires Frag(c1)
    ensures Frag(NotCode(f, c1))
  {
    hide Embedded, OpOrEnd, FragIn, Emit, GenTest, NotCode, TestSize;
    var c := NotCode(f, c1);
    var k := 2 + |c1| + 1;
    var t := TestSize(f);
    Whole(c);
    NotParts(f, c1, c, 0);
    InstBoundary(c, t + 2 + |c1|, IFailTwice);
    HeadLift(c, t + 2 + |c1|, IFailTwice);
    Boundary(c, t + 2, c1);
    Lift(c, t + 2, c1);
    InstBoundary(c, t, IChoice(k));
    HeadLift(c, t, IChoice(k));
    TestLift(c, 0, f, t + k);
    Join(c, t + 2, t + 2 + |c1|, |c|);
    Join(c, t, t + 2, |c|);
    Join(c, 0, t, |c|);
  }

  lemma AndFrag(c1: seq<Slot>)
    requires Frag(c1)
    ensures Frag(AndCode(c1))
  {
    hide Embedded, OpOrEnd, FragIn, Emit, AndCode;
    var c := AndCode(c1);
    var k := 2 + |c1| + 2;
    Whole(c);
    AndParts(c1, c, 0);
    InstBoundary(c, k, IFail);
    HeadLift(c, k, IFail);
    InstBoundary(c, 2 + |c1|, IBackCommit(3));
    HeadLift(c, 2 + |c1|, IBackCommit(3));
    Boundary(c, 2, c1);
    Lift(c, 2, c1);
    InstBoundary(c, 0, IChoice(k));
    HeadLift(c, 0, IChoice(k));
    Join(c, 2 + |c1|, k, |c|);
    Join(c, 2, 2 + |c1|, |c|);
    Join(c, 0, 2, |c|);
  }

  lemma EmptyFrag()
    ensures Frag([])
  {
  }

  lemma LeafFrag(t: Tree, opt: bool, tt: Test, fl: Charset)
    requires t.TChar? || t.TSet? || t.TAny? || t.TTrue? || t.TFalse? || (t.TRep? && ToCharset(t.body).Some?)
    ensures Frag(Gen(t, opt, tt, fl))
  {
    hide Frag, Emit, CharsetType, GetFirst, ChoiceByTest, LoopByTest;
    EmptyFrag();
    forall i: Inst | !HasOffset(i) ensures Frag(Emit(i)) { SingleFrag(i); }
  }

  lemma {:induction false} GenFrag(t: Tree, opt: bool, tt: Test, fl: Charset)
    ensures Frag(Gen(t, opt, tt, fl))
  {
    hide Gen, Frag, GetFirst, FixedLen, HeadFail, ChoiceByTest, LoopByTest, Emit, TestAfter,
      ChoiceTestCode, ChoiceCode, ReuseCode, LoopTestCode, LoopCode, NotCode, NotTestCode, AndCode;
    GenAt(t, opt, tt, fl);
    match t
    case TSeq(p, q) =>
      var fl1 := FollowOf(p, q, fl);
      var tt2 := if FixedLen(p) != 0 then NoTest else tt;
      GenFrag(p, false, tt, fl1);
      GenFrag(q, opt, tt2, fl);
      SeqFrag(Gen(p, false, tt, fl1), Gen(q, opt, tt2, fl));
    case TChoice(p, q) =>
      var f := GetFirst(p, Full());
      ChoiceGen(p, q, opt, tt, fl);
      GenFrag(q, opt, NoTest, fl);
      if ChoiceByTest(p, q, fl) {
        GenFrag(p, false, TestAfter(NoEmpty(f)), fl);
        ChoiceTestFrag(NoEmpty(f), Gen(p, false, TestAfter(NoEmpty(f)), fl), Gen(q, opt, NoTest, fl), q.TTrue?);
      } else if opt && q.TTrue? {
        GenFrag(p, true, NoTest, Full());
        ReuseFrag(Gen(p, true, NoTest, Full()));
      } else {
        GenFrag(p, q.TTrue?, TestAfter(f), Full());
        ChoiceFrag(f, Gen(p, q.TTrue?, TestAfter(f), Full()), Gen(q, opt, NoTest, fl));
      }
    case TRep(p) =>
      var f := GetFirst(p, Full());
      if ToCharset(p).Some? { LeafFrag(t, opt, tt, fl); }
      else {
        RepGen(p, opt, tt, fl);
        if LoopByTest(p, fl) {
          GenFrag(p, opt, TestAfter(NoEmpty(f)), Full());
          LoopTestFrag(NoEmpty(f), Gen(p, opt, TestAfter(NoEmpty(f)), Full()));
        } else {
          GenFrag(p, false, NoTest, Full());
          LoopFrag(f, opt, Gen(p, false, NoTest, Full()));
        }
      }
    case TNot(p) =>
      var f := GetFirst(p, Full());
      GenFrag(p, false, NoTest, Full());
      if HeadFail(p) { NotTestFrag(f); } else { NotFrag(f, Gen(p, false, NoTest, Full())); }
    case TAnd(p) =>
      var c := Gen(p, false, tt, Full());
      var n := FixedLen(p);
      GenFrag(p, false, tt, Full());
      EmptyFrag();
      if n > 0 { SingleFrag(IBehind(n)); }
      if 0 <= n <= MAXBEHIND { SeqFrag(c, if n > 0 then Emit(IBehind(n)) else []); } else { AndFrag(c); }
    case TBehind(n, p) =>
      var c := Gen(p, false, NoTest, Full());
      GenFrag(p, false, NoTest, Full());
      EmptyFrag();
      if n > 0 { SingleFrag(IBehind(n)); }
      SeqFrag(if n > 0 then Emit(IBehind(n)) else [], c);
    case _ => LeafFrag(t, opt, tt, fl);
  }

  /** A rank that goes down along every jump: backward jumps rank by their own
      distance to the end, forward jumps by that of their target. */
  function RankAt(c: seq<Slot>, q: nat): nat
    requires q < |c|
  {
    if !IsJmp(c, q) then 0
    else if Target(c, q) <= q then 2 * (|c| - q)
    else if Target(c, q) <= |c| then 2 * (|c| - Target(c, q)) + 1
    else 0
  }

  function Ranks(c: seq<Slot>): (r: seq<nat>)
    ensures |r| == |c| && forall q :: 0 <= q < |c| ==> r[q] == RankAt(c, q)
  {
    seq(|c|, q requires 0 <= q < |c| => RankAt(c, q))
  }

  /** The output of the compiler before the peephole pass is well linked, so that
      following its jumps terminates. */
  lemma CompileLinked(t: Tree)
    ensures Linked(Compile(t), Ranks(Compile(t)))
    ensures IsInst(Compile(t), 0)
  {
    var c := Compile(t);
    var g := Gen(t, false, NoTest, Full());
    assert c == g + Emit(IEnd);
    hide Gen, Compile;
    GenFrag(t, false, NoTest, Full());
    SingleFrag(IEnd);
    SeqFrag(g, Emit(IEnd));
    assert c[|c| - 1] == Op(IEnd);
    forall q | IsInst(c, q) ensures LinkedAt(c, Ranks(c), q) && LaidAt(c, q) {
      assert FragAt(c, q);
      if HasOffset(c[q].inst) { NotPastEnd(g, q); }
    }
  }

  /** No label of the code of a tree leads past the final IEnd. */
  lemma NotPastEnd(g: seq<Slot>, q: int)
    requires Frag(g) && IsInst(g + Emit(IEnd), q) && HasOffset((g + Emit(IEnd))[q].inst)
    ensures Target(g + Emit(IEnd), q) < |g + Emit(IEnd)|
  {
    assert q < |g|;
    assert FragAt(g, q);
  }
}
