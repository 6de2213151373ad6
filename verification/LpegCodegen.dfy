/** The compiler state of lpcode.c: instructions are appended to one code array and
    the offsets of earlier ones are patched in place. Every method appends exactly
    the code that LpegGen gives for its tree. */
module LpegCodegen {
  import opened Sequences
  import opened Wrappers
  import opened LpegTree
  import opened LpegAnalysis
  import opened LpegVM
  import opened LpegGen
  import opened LpegCorrect

  const NOINST: int := -1

  function WithOffset(i: Inst, offset: int): (r: Inst)
    ensures SizeI(r) == SizeI(i) && TestOf(r) == TestOf(i)
  {
    match i
    case ITestAny(_) => ITestAny(offset)
    case ITestChar(c, _) => ITestChar(c, offset)
    case ITestSet(cs, _) => ITestSet(cs, offset)
    case IChoice(_) => IChoice(offset)
    case IJmp(_) => IJmp(offset)
    case ICommit(_) => ICommit(offset)
    case IPartialCommit(_) => IPartialCommit(offset)
    case IBackCommit(_) => IBackCommit(offset)
    case _ => i
  }

  /** The test known to hold at code protected by the instruction at `tt`. */
  function TestAt(code: seq<Slot>, tt: int): Test {
    if 0 <= tt < |code| && code[tt].Op? then TestOf(code[tt].inst) else NoTest
  }

  /** The code with the offset of one instruction replaced; NOINST is ignored. */
  function Patched(code: seq<Slot>, i: int, offset: int): (r: seq<Slot>)
    ensures |r| == |code|
  {
    if 0 <= i < |code| && code[i].Op? then code[i := Op(WithOffset(code[i].inst, offset))] else code
  }

  lemma PatchAt(a: seq<Slot>, inst: Inst, offset: int, b: seq<Slot>)
    ensures Patched(a + Emit(inst) + b, |a|, offset) == a + Emit(WithOffset(inst, offset)) + b
  {
    var inst2 := WithOffset(inst, offset);
    assert Emit(inst)[0 := Op(inst2)] == Emit(inst2);
  }

  lemma TestAtEmitted(a: seq<Slot>, f: First)
    ensures !f.e ==> TestAt(a + Emit(TestInst(f.cs, 0)), |a|) == TestAfter(f)
    ensures f.e ==> TestAfter(f) == NoTest
  {
    hide TestInst;
  }

  lemma TestKept(a: seq<Slot>, b: seq<Slot>, tt: int)
    requires tt < |a|
    ensures TestAt(a + b, tt) == TestAt(a, tt)
  {
    if 0 <= tt { assert (a + b)[tt] == a[tt]; }
  }

  lemma PatchNone(a: seq<Slot>, i: int)
    ensures i == NOINST ==> Patched(a, i, |a| - i) == a
  {
  }

  lemma NoTestAtNoInst(a: seq<Slot>)
    ensures TestAt(a, NOINST) == NoTest
  {
  }

  lemma SingleSlot(i: Inst)
    requires SizeI(i) == 1
    ensures Emit(i) == [Op(i)]
  {
  }

  lemma TwoSlots(i: Inst)
    requires SizeI(i) == 2
    ensures Emit(i) == [Op(i), Operand]
  {
  }

  lemma NineSlots(i: Inst)
    requires SizeI(i) == CHARSETINSTSIZE
    ensures Emit(i) == [Op(i)] + seq(CHARSETINSTSIZE - 1, _ => Operand)
  {
  }

  lemma SpanGen(p: Tree, opt: bool, tt: Test, fl: Charset)
    requires ToCharset(p).Some?
    ensures Gen(TRep(p), opt, tt, fl) == Emit(ISpan(ToCharset(p).value))
  {
  }

  /** The code of `t` in terms of the code of its parts. */
  lemma GenAt(t: Tree, opt: bool, tt: Test, fl: Charset)
    ensures t.TChar? ==> Gen(t, opt, tt, fl) == GenChar(t.c, tt)
    ensures t.TSet? ==> Gen(t, opt, tt, fl) == GenCharset(t.cs, tt)
    ensures t.TAny? ==> Gen(t, opt, tt, fl) == Emit(IAny)
    ensures t.TTrue? ==> Gen(t, opt, tt, fl) == []
    ensures t.TFalse? ==> Gen(t, opt, tt, fl) == Emit(IFail)
    ensures t.TChoice? || t.TRep? ==> Gen(t, opt, tt, fl) == Gen(t, opt, NoTest, fl)
    ensures t.TBehind? ==> Gen(t, opt, tt, fl) == BehindCode(t.n, Gen(t.body, false, NoTest, Full()))
    ensures t.TNot? ==>
      var f := GetFirst(t.body, Full());
      Gen(t, opt, tt, fl) == if HeadFail(t.body) then NotTestCode(f) else NotCode(f, Gen(t.body, false, NoTest, Full()))
    ensures t.TAnd? ==>
      var n := FixedLen(t.body);
      var c := Gen(t.body, false, tt, Full());
      Gen(t, opt, tt, fl) == if 0 <= n <= MAXBEHIND then AndFixedCode(n, c) else AndCode(c)
    ensures t.TSeq? ==>
      var fl1 := FollowOf(t.first, t.second, fl);
      var tt2 := if FixedLen(t.first) != 0 then NoTest else tt;
      Gen(t, opt, tt, fl) == Gen(t.first, false, tt, fl1) + Gen(t.second, opt, tt2, fl)
  {
    hide GetFirst, GenChar, GenCharset, FixedLen, HeadFail, ChoiceByTest, LoopByTest, Emit, TestAfter,
      ChoiceTestCode, ChoiceCode, ReuseCode, LoopTestCode, LoopCode, BehindCode, NotCode, NotTestCode, AndCode, AndFixedCode;
  }

  lemma PatchLast(a: seq<Slot>, inst: Inst, offset: int)
    ensures Patched(a + Emit(inst), |a|, offset) == a + Emit(WithOffset(inst, offset))
  {
    hide Emit;
    PatchAt(a, inst, offset, []);
    assert a + Emit(inst) + [] == a + Emit(inst);
    assert a + Emit(WithOffset(inst, offset)) + [] == a + Emit(WithOffset(inst, offset));
  }

  class CompileState {
    var code: seq<Slot>

    constructor ()
      ensures code == []
    {
      code := [];
    }

    function GetHere(): int reads this { |code| }

    method AddInstruction(inst: Inst) returns (i: int)
      modifies this
      ensures i == |old(code)| && code == old(code) + [Op(inst)]
    {
      i := |code|;
      code := code + [Op(inst)];
    }

    /** An instruction followed by space for its offset, which is set later. */
    method AddOffsetInst(inst: Inst) returns (i: int)
      modifies this
      ensures i == |old(code)| && code == old(code) + [Op(inst), Operand]
    {
      i := |code|;
      code := code + [Op(inst)];
      code := code + [Operand];
    }

    method JumpToThere(instruction: int, target: int)
      modifies this
      ensures code == Patched(old(code), instruction, target - instruction)
    {
      if 0 <= instruction < |code| && code[instruction].Op? {
        code := code[instruction := Op(WithOffset(code[instruction].inst, target - instruction))];
      }
    }

    method JumpToHere(instruction: int)
      modifies this
      ensures code == Patched(old(code), instruction, |old(code)| - instruction)
    {
      JumpToThere(instruction, GetHere());
    }

    method AddCharset(n: nat)
      modifies this
      ensures code == old(code) + seq(n, _ => Operand)
    {
      for i := 0 to n
        invariant code == old(code) + seq(i, _ => Operand)
      {
        code := code + [Operand];
      }
    }

    method CodeChar(c: Char, tt: int)
      modifies this
      ensures code == old(code) + GenChar(c, TestAt(old(code), tt))
    {
      if 0 <= tt < |code| && code[tt].Op? && code[tt].inst.ITestChar? && code[tt].inst.c == c {
        var _ := AddInstruction(IAny);
      } else {
        var _ := AddInstruction(IChar(c));
      }
    }

    method CodeCharset(cs: Charset, tt: int)
      modifies this
      ensures code == old(code) + GenCharset(cs, TestAt(old(code), tt))
    {
      match CharsetType(cs) {
        case CChar(c) => CodeChar(c, tt);
        case CSet =>
          if 0 <= tt < |code| && code[tt].Op? && code[tt].inst.ITestSet? && code[tt].inst.cs == cs {
            var _ := AddInstruction(IAny);
          } else {
            var _ := AddInstruction(ISet(cs));
            AddCharset(CHARSETINSTSIZE - 1);
          }
        case CFail => var _ := AddInstruction(IFail);
        case CAny => var _ := AddInstruction(IAny);
      }
    }

    method CodeTestSet(f: First) returns (test: int)
      modifies this
      ensures test == if f.e then NOINST else |old(code)|
      ensures code == old(code) + (if f.e then [] else Emit(TestInst(f.cs, 0)))
    {
      if f.e { return NOINST; }
      match CharsetType(f.cs) {
        case CFail => test := AddOffsetInst(IJmp(0));
        case CAny => test := AddOffsetInst(ITestAny(0));
        case CChar(c) => test := AddOffsetInst(ITestChar(c, 0));
        case CSet =>
          test := AddOffsetInst(ITestSet(f.cs, 0));
          AddCharset(CHARSETINSTSIZE - 1);
      }
    }

    /** Patching the offset of a test that `CodeTestSet` emitted. */
    lemma TestPatched(a: seq<Slot>, f: First, offset: int, b: seq<Slot>)
      requires !f.e
      ensures Patched(a + Emit(TestInst(f.cs, 0)) + b, |a|, offset) == a + GenTest(f, offset) + b
    {
      PatchAt(a, TestInst(f.cs, 0), offset, b);
      assert WithOffset(TestInst(f.cs, 0), offset) == TestInst(f.cs, offset);
    }

    /** Generates the code of `t`; `tt` is the index of a test that dominates it, or
        NOINST. */
    method CodeGen(t: Tree, opt: bool, tt: int, fl: Charset)
      requires tt < |code|
      modifies this
      ensures code == old(code) + Gen(t, opt, TestAt(old(code), tt), fl)
      decreases t, 2
    {
      hide Patched, Gen, GetFirst, GenChar, GenCharset, TestAt, FixedLen, HeadFail, ChoiceByTest, LoopByTest, Emit, TestAfter,
        ChoiceTestCode, ChoiceCode, ReuseCode, LoopTestCode, LoopCode, BehindCode, NotCode, NotTestCode, AndCode, AndFixedCode;
      ghost var a := code;
      GenAt(t, opt, TestAt(a, tt), fl);
      match t {
        case TChar(c) => CodeChar(c, tt);
        case TAny =>
          SingleSlot(IAny);
          var _ := AddInstruction(IAny);
        case TSet(cs) => CodeCharset(cs, tt);
        case TTrue =>
        case TFalse =>
          SingleSlot(IFail);
          var _ := AddInstruction(IFail);
        case TChoice(p, q) => CodeChoice(p, q, opt, fl);
        case TRep(p) => CodeRep(p, opt, fl);
        case TBehind(n, p) => CodeBehind(n, p);
        case TNot(p) => CodeNot(p);
        case TAnd(p) => CodeAnd(p, tt);
        case TSeq(p, q) =>
          var tt2 := CodeSeq1(p, q, tt, fl);
          TestKept(a, Gen(p, false, TestAt(a, tt), FollowOf(p, q, fl)), tt);
          NoTestAtNoInst(code);
          CodeGen(q, opt, tt2, fl);
      }
    }

    /** The first part of a sequence; returns the test that still protects the second. */
    method CodeSeq1(p: Tree, q: Tree, tt: int, fl: Charset) returns (tt2: int)
      requires tt < |code|
      modifies this
      ensures tt2 == if FixedLen(p) != 0 then NOINST else tt
      ensures code == old(code) + Gen(p, false, TestAt(old(code), tt), FollowOf(p, q, fl))
      decreases p, 3
    {
      hide Patched, Gen, GetFirst, TestAt, FixedLen;
      if NeedFollow(p) {
        var fl1 := GetFirst(q, fl).cs;
        CodeGen(p, false, tt, fl1);
      } else {
        CodeGen(p, false, tt, Full());
      }
      if FixedLen(p) != 0 { return NOINST; }
      return tt;
    }

    method CodeBehind(n: nat, p: Tree)
      modifies this
      ensures code == old(code) + BehindCode(n, Gen(p, false, NoTest, Full()))
      decreases p, 3
    {
      hide Patched, Gen, Emit;
      if n > 0 {
        SingleSlot(IBehind(n));
        var _ := AddInstruction(IBehind(n));
      }
      CodeGen(p, false, NOINST, Full());
    }

    method CodeChoice(p: Tree, q: Tree, opt: bool, fl: Charset)
      modifies this
      ensures code == old(code) + Gen(TChoice(p, q), opt, NoTest, fl)
      decreases TChoice(p, q), 1
    {
      hide Patched, Gen, GetFirst, HeadFail, TestAt, TestAfter, TestInst, Emit, GenTest;
      ghost var a := code;
      var emptyp2 := q.TTrue?;
      var f := GetFirst(p, Full());
      ChoiceGen(p, q, opt, NoTest, fl);
      if HeadFail(p) || (!f.e && Disjoint(f.cs, GetFirst(q, fl).cs)) {
        CodeChoiceTest(p, q, opt, NoEmpty(f), fl);
      } else if opt && emptyp2 {
        TwoSlots(IPartialCommit(0));
        TwoSlots(IPartialCommit(2));
        PatchLast(a, IPartialCommit(0), 2);
        var commit := AddOffsetInst(IPartialCommit(0));
        JumpToHere(commit);
        NoTestAtNoInst(code);
        CodeGen(p, true, NOINST, Full());
        Regroup(a, Emit(IPartialCommit(2)), Gen(p, true, NoTest, Full()));
      } else {
        CodeChoiceStacked(p, q, opt, f, fl);
      }
    }

    /** test (fail(p)) -> L1; p; jmp L2; L1: q; L2: */
    method CodeChoiceTest(p: Tree, q: Tree, opt: bool, f: First, fl: Charset)
      requires !f.e
      modifies this
      ensures code == old(code) +
        ChoiceTestCode(f, Gen(p, false, TestAfter(f), fl), Gen(q, opt, NoTest, fl), q.TTrue?)
      decreases TChoice(p, q), 0
    {
      hide Patched, Gen, TestAt, TestAfter, TestInst, Emit, GenTest;
      ghost var a := code;
      ghost var c1 := Gen(p, false, TestAfter(f), fl);
      ghost var c2 := Gen(q, opt, NoTest, fl);
      var test := CodeTestSet(f);
      TestAtEmitted(a, f);
      CodeGen(p, false, test, fl);
      var jmp := NOINST;
      ghost var j0 := [];
      assert code + j0 == code;
      if !q.TTrue? {
        TwoSlots(IJmp(0));
        jmp := AddOffsetInst(IJmp(0));
        j0 := Emit(IJmp(0));
      }
      ghost var g := GenTest(f, TestSize(f) + |c1| + |j0|);
      Regroup(a + Emit(TestInst(f.cs, 0)), c1, j0);
      TestPatched(a, f, TestSize(f) + |c1| + |j0|, c1 + j0);
      PatchNone(code, test);
      JumpToHere(test);
      NoTestAtNoInst(code);
      CodeGen(q, opt, NOINST, fl);
      ghost var j := if q.TTrue? then [] else Emit(IJmp(2 + |c2|));
      Regroup(a + g, c1, j0);
      if !q.TTrue? { PatchAt(a + g + c1, IJmp(0), 2 + |c2|, c2); }
      PatchNone(code, jmp);
      JumpToHere(jmp);
      Regroup(a + g + c1, j, c2);
      Regroup(a + g, c1, j + c2);
      Regroup(a, g, c1 + (j + c2));
    }

    /** test(fail(p)) -> L1; choice L1; p; commit L2; L1: q; L2: */
    method CodeChoiceStacked(p: Tree, q: Tree, opt: bool, f: First, fl: Charset)
      modifies this
      ensures code == old(code) +
        ChoiceCode(f, Gen(p, q.TTrue?, TestAfter(f), Full()), Gen(q, opt, NoTest, fl))
      decreases TChoice(p, q), 0
    {
      hide Patched, Gen, TestAt, TestAfter, TestInst, Emit, GenTest;
      ghost var a := code;
      ghost var c1 := Gen(p, q.TTrue?, TestAfter(f), Full());
      ghost var c2 := Gen(q, opt, NoTest, fl);
      ghost var k := 2 + |c1| + 2;
      ghost var g := GenTest(f, TestSize(f) + k);
      ghost var ch := Emit(IChoice(k));
      ghost var m := Emit(ICommit(2 + |c2|));
      var commit := CodeAlternative(p, q.TTrue?, f);
      NoTestAtNoInst(code);
      CodeGen(q, opt, NOINST, fl);
      PatchAt(a + g + ch + c1, ICommit(0), 2 + |c2|, c2);
      JumpToHere(commit);
      Regroup(a + g + ch + c1, m, c2);
      Regroup(a + g + ch, c1, m + c2);
      Regroup(a + g, ch, c1 + (m + c2));
      Regroup(a, g, ch + (c1 + (m + c2)));
    }

    /** The first alternative of a choice, up to the commit that is patched later. */
    method CodeAlternative(p: Tree, emptyp2: bool, f: First) returns (commit: int)
      modifies this
      ensures
        var c := Gen(p, emptyp2, TestAfter(f), Full());
        var k := 2 + |c| + 2;
        code == old(code) + GenTest(f, TestSize(f) + k) + Emit(IChoice(k)) + c + Emit(ICommit(0))
      ensures commit == |code| - 2
      decreases p, 3
    {
      hide Patched, Gen, TestAt, TestAfter, TestInst, Emit, GenTest;
      ghost var a := code;
      ghost var c := Gen(p, emptyp2, TestAfter(f), Full());
      ghost var k := 2 + |c| + 2;
      ghost var g := GenTest(f, TestSize(f) + k);
      ghost var ch := Emit(IChoice(k));
      ghost var m0 := Emit(ICommit(0));
      var test := CodeTestSet(f);
      ghost var t0 := if f.e then [] else Emit(TestInst(f.cs, 0));
      TestAtEmitted(a, f);
      NoTestAtNoInst(code);
      TwoSlots(IChoice(0));
      var choice := AddOffsetInst(IChoice(0));
      TestKept(a + t0, Emit(IChoice(0)), test);
      CodeGen(p, emptyp2, test, Full());
      TwoSlots(ICommit(0));
      commit := AddOffsetInst(ICommit(0));
      Regroup(a + t0 + Emit(IChoice(0)), c, m0);
      PatchAt(a + t0, IChoice(0), k, c + m0);
      JumpToHere(choice);
      Regroup(a + t0, ch, c + m0);
      if !f.e { TestPatched(a, f, TestSize(f) + k, ch + (c + m0)); }
      PatchNone(code, test);
      JumpToHere(test);
      Regroup(a + g, ch, c + m0);
      Regroup(a + g + ch, c, m0);
    }

    method CodeAnd(p: Tree, tt: int)
      requires tt < |code|
      modifies this
      ensures
        var n := FixedLen(p);
        var c := Gen(p, false, TestAt(old(code), tt), Full());
        code == old(code) + if 0 <= n <= MAXBEHIND then AndFixedCode(n, c) else AndCode(c)
      decreases p, 4
    {
      hide Patched, Gen, TestAt, Emit, FixedLenX, AndCode;
      var n := FixedLen(p);
      if 0 <= n <= MAXBEHIND {
        CodeGen(p, false, tt, Full());
        if n > 0 {
          SingleSlot(IBehind(n));
          var _ := AddInstruction(IBehind(n));
        }
      } else {
        CodeAndStacked(p, tt);
      }
    }

    /** choice L1; p; backcommit L2; L1: fail; L2: */
    method CodeAndStacked(p: Tree, tt: int)
      requires tt < |code|
      modifies this
      ensures code == old(code) + AndCode(Gen(p, false, TestAt(old(code), tt), Full()))
      decreases p, 3
    {
      hide Patched, Gen, TestAt, Emit;
      ghost var a := code;
      ghost var c := Gen(p, false, TestAt(code, tt), Full());
      ghost var k := 2 + |c| + 2;
      ghost var m0 := Emit(IBackCommit(0));
      ghost var m := Emit(IBackCommit(3));
      ghost var ch := Emit(IChoice(k));
      TwoSlots(IChoice(0));
      var choice := AddOffsetInst(IChoice(0));
      TestKept(a, Emit(IChoice(0)), tt);
      CodeGen(p, false, tt, Full());
      TwoSlots(IBackCommit(0));
      var commit := AddOffsetInst(IBackCommit(0));
      Regroup(a + Emit(IChoice(0)), c, m0);
      PatchAt(a, IChoice(0), k, c + m0);
      JumpToHere(choice);
      Regroup(a + ch, c, m0);
      SingleSlot(IFail);
      var _ := AddInstruction(IFail);
      PatchAt(a + ch + c, IBackCommit(0), 3, Emit(IFail));
      JumpToHere(commit);
      Regroup(a + ch + c, m, Emit(IFail));
      Regroup(a + ch, c, m + Emit(IFail));
      Regroup(a, ch, c + (m + Emit(IFail)));
    }

    method CodeRep(p: Tree, opt: bool, fl: Charset)
      modifies this
      ensures code == old(code) + Gen(TRep(p), opt, NoTest, fl)
      decreases TRep(p), 1
    {
      hide Patched, Gen, GetFirst, HeadFail, TestAt, TestAfter, TestInst, Emit, GenTest, LoopCode, LoopTestCode;
      if ToCharset(p).Some? {
        SpanGen(p, opt, NoTest, fl);
        NineSlots(ISpan(ToCharset(p).value));
        var _ := AddInstruction(ISpan(ToCharset(p).value));
        AddCharset(CHARSETINSTSIZE - 1);
      } else {
        var f := GetFirst(p, Full());
        RepGen(p, opt, NoTest, fl);
        if HeadFail(p) || (!f.e && Disjoint(f.cs, fl)) {
          CodeLoopTest(p, opt, NoEmpty(f));
        } else {
          CodeLoop(p, opt, f);
        }
      }
    }

    /** L1: test (fail(p)) -> L2; p; jmp L1; L2: */
    method CodeLoopTest(p: Tree, opt: bool, f: First)
      requires !f.e
      modifies this
      ensures code == old(code) + LoopTestCode(f, Gen(p, opt, TestAfter(f), Full()))
      decreases p, 3
    {
      hide Patched, Gen, TestAt, TestAfter, TestInst, Emit, GenTest;
      ghost var a := code;
      ghost var c := Gen(p, opt, TestAfter(f), Full());
      var test := CodeTestSet(f);
      TestAtEmitted(a, f);
      CodeGen(p, opt, test, Full());
      TwoSlots(IJmp(0));
      var jmp := AddOffsetInst(IJmp(0));
      ghost var g := GenTest(f, TestSize(f) + |c| + 2);
      Regroup(a + Emit(TestInst(f.cs, 0)), c, Emit(IJmp(0)));
      TestPatched(a, f, TestSize(f) + |c| + 2, c + Emit(IJmp(0)));
      PatchNone(code, test);
      JumpToHere(test);
      Regroup(a + g, c, Emit(IJmp(0)));
      PatchLast(a + g + c, IJmp(0), -(TestSize(f) + |c|));
      JumpToThere(jmp, test);
      Regroup(a + g, c, Emit(IJmp(-(TestSize(f) + |c|))));
      Regroup(a, g, c + Emit(IJmp(-(TestSize(f) + |c|))));
    }

    /** test(fail(p)) -> L2; choice L2; L1: p; partialcommit L1; L2: */
    method CodeLoop(p: Tree, opt: bool, f: First)
      modifies this
      ensures code == old(code) + LoopCode(f, opt, Gen(p, false, NoTest, Full()))
      decreases p, 4
    {
      hide Patched, Gen, TestAt, TestAfter, TestInst, Emit, GenTest;
      ghost var a := code;
      ghost var c := Gen(p, false, NoTest, Full());
      ghost var k := 2 + |c| + 2;
      ghost var t0 := if f.e then [] else Emit(TestInst(f.cs, 0));
      ghost var ch0 := if opt then IPartialCommit(2) else IChoice(0);
      ghost var ch := if opt then IPartialCommit(2) else IChoice(k);
      ghost var rest := c + Emit(IPartialCommit(-|c|));
      var test, choice := CodeLoopEntry(opt, f);
      CodeLoopBody(p);
      PatchAt(a + t0, ch0, k, rest);
      PatchNone(code, choice);
      JumpToHere(choice);
      Regroup(a + t0, Emit(ch), rest);
      if !f.e { TestPatched(a, f, TestSize(f) + k, Emit(ch) + rest); }
      PatchNone(code, test);
      JumpToHere(test);
      Regroup(a, GenTest(f, TestSize(f) + k), Emit(ch) + rest);
    }

    method CodeLoopBody(p: Tree)
      modifies this
      ensures
        var c := Gen(p, false, NoTest, Full());
        code == old(code) + (c + Emit(IPartialCommit(-|c|)))
      decreases p, 3
    {
      hide Patched, Gen, TestAt, Emit;
      ghost var a := code;
      ghost var c := Gen(p, false, NoTest, Full());
      var l2 := GetHere();
      NoTestAtNoInst(code);
      CodeGen(p, false, NOINST, Full());
      TwoSlots(IPartialCommit(0));
      var commit := AddOffsetInst(IPartialCommit(0));
      PatchLast(a + c, IPartialCommit(0), -|c|);
      JumpToThere(commit, l2);
      Regroup(a, c, Emit(IPartialCommit(-|c|)));
    }

    method CodeLoopEntry(opt: bool, f: First) returns (test: int, choice: int)
      modifies this
      ensures test == if f.e then NOINST else |old(code)|
      ensures choice == if opt then NOINST else |code| - 2
      ensures code == old(code) + (if f.e then [] else Emit(TestInst(f.cs, 0))) +
                      Emit(if opt then IPartialCommit(2) else IChoice(0))
    {
      hide Patched, TestInst, Emit;
      test := CodeTestSet(f);
      choice := NOINST;
      if opt {
        TwoSlots(IPartialCommit(0));
        PatchLast(code, IPartialCommit(0), 2);
        var reuse := AddOffsetInst(IPartialCommit(0));
        JumpToHere(reuse);
      } else {
        TwoSlots(IChoice(0));
        choice := AddOffsetInst(IChoice(0));
      }
    }

    method CodeNot(p: Tree)
      modifies this
      ensures
        var f := GetFirst(p, Full());
        code == old(code) + if HeadFail(p) then NotTestCode(f) else NotCode(f, Gen(p, false, NoTest, Full()))
      decreases p, 3
    {
      hide Patched, Gen, GetFirst, HeadFail, TestAt, TestAfter, TestInst, Emit, GenTest;
      ghost var a := code;
      var f := GetFirst(p, Full());
      var test := CodeTestSet(f);
      ghost var t0 := if f.e then [] else Emit(TestInst(f.cs, 0));
      ghost var rest;
      if HeadFail(p) {
        SingleSlot(IFail);
        var _ := AddInstruction(IFail);
        rest := Emit(IFail);
      } else {
        ghost var c := Gen(p, false, NoTest, Full());
        ghost var k := 2 + |c| + 1;
        TwoSlots(IChoice(0));
        var choice := AddOffsetInst(IChoice(0));
        NoTestAtNoInst(code);
        CodeGen(p, false, NOINST, Full());
        SingleSlot(IFailTwice);
        var _ := AddInstruction(IFailTwice);
        Regroup(a + t0 + Emit(IChoice(0)), c, Emit(IFailTwice));
        PatchAt(a + t0, IChoice(0), k, c + Emit(IFailTwice));
        JumpToHere(choice);
        rest := Emit(IChoice(k)) + (c + Emit(IFailTwice));
        Regroup(a + t0, Emit(IChoice(k)), c + Emit(IFailTwice));
      }
      if !f.e { TestPatched(a, f, TestSize(f) + |rest|, rest); }
      PatchNone(code, test);
      JumpToHere(test);
      Regroup(a, GenTest(f, TestSize(f) + |rest|), rest);
    }
  }
}
