/** The code that lpcode.c generates for a tree, as a value. Offsets are relative,
    so the code of a tree does not depend on where it is placed. */
module LpegGen {
  import opened Wrappers
  import opened LpegTree
  import opened LpegAnalysis
  import opened LpegVM

  datatype CType = CFail | CChar(c: Char) | CAny | CSet

  /** Whether a charset is empty, a singleton, full, or none of those. */
  function CharsetType(cs: Charset): CType {
    if cs == {} then CFail
    else if exists c :: c in cs && cs == {c} then
      var c :| c in cs && cs == {c};
      CChar(c)
    else if cs == Full() then CAny
    else CSet
  }

  /** What code generation knows about the test that dominates the code. */
  datatype Test = NoTest | TestChar(c: Char) | TestSet(cs: Charset)

  function Emit(i: Inst): (f: seq<Slot>)
    ensures |f| == SizeI(i) && f[0] == Op(i)
  {
    [Op(i)] + seq(SizeI(i) - 1, _ => Operand)
  }

  predicate Disjoint(a: Charset, b: Charset) { a * b == {} }

  function GenChar(c: Char, tt: Test): seq<Slot> {
    if tt == TestChar(c) then Emit(IAny) else Emit(IChar(c))
  }

  function GenCharset(cs: Charset, tt: Test): seq<Slot> {
    match CharsetType(cs)
    case CChar(c) => GenChar(c, tt)
    case CSet => if tt == TestSet(cs) then Emit(IAny) else Emit(ISet(cs))
    case CFail => Emit(IFail)
    case CAny => Emit(IAny)
  }

  /** The test instruction for a first set; it jumps by `offset` if the set does
      not contain the next character. */
  function TestInst(cs: Charset, offset: int): Inst {
    match CharsetType(cs)
    case CFail => IJmp(offset)
    case CAny => ITestAny(offset)
    case CChar(c) => ITestChar(c, offset)
    case CSet => ITestSet(cs, offset)
  }

  function TestSize(f: First): nat { if f.e then 0 else SizeI(TestInst(f.cs, 0)) }

  function GenTest(f: First, offset: int): (g: seq<Slot>)
    ensures |g| == TestSize(f)
  {
    if f.e then [] else Emit(TestInst(f.cs, offset))
  }

  function TestOf(i: Inst): Test {
    match i
    case ITestChar(c, _) => TestChar(c)
    case ITestSet(cs, _) => TestSet(cs)
    case _ => NoTest
  }

  function TestAfter(f: First): Test { if f.e then NoTest else TestOf(TestInst(f.cs, 0)) }

  predicate ChoiceByTest(p: Tree, q: Tree, fl: Charset) {
    var f := GetFirst(p, Full());
    HeadFail(p) || (!f.e && Disjoint(f.cs, GetFirst(q, fl).cs))
  }

  predicate LoopByTest(p: Tree, fl: Charset) {
    var f := GetFirst(p, Full());
    HeadFail(p) || (!f.e && Disjoint(f.cs, fl))
  }

  /** True when the test for `f` lets the machine through at `i`. */
  ghost predicate Passes(f: First, s: seq<Char>, i: nat) { f.e || (i < |s| && s[i] in f.cs) }

  /** The follow set of the first half of a sequence. */
  function FollowOf(p: Tree, q: Tree, fl: Charset): Charset { if NeedFollow(p) then GetFirst(q, fl).cs else Full() }

  function NoEmpty(f: First): First { First(f.cs, false) }

  // The shapes of code around the code of the subtrees. The offsets are the ones
  // the C code patches in once the position of the target is known.

  function ChoiceTestCode(f: First, c1: seq<Slot>, c2: seq<Slot>, emptyq: bool): seq<Slot> {
    var jmp := if emptyq then [] else Emit(IJmp(2 + |c2|));
    GenTest(f, TestSize(f) + |c1| + |jmp|) + (c1 + (jmp + c2))
  }

  function ChoiceCode(f: First, c1: seq<Slot>, c2: seq<Slot>): seq<Slot> {
    var k := 2 + |c1| + 2;
    GenTest(f, TestSize(f) + k) + (Emit(IChoice(k)) + (c1 + (Emit(ICommit(2 + |c2|)) + c2)))
  }

  function ReuseCode(c: seq<Slot>): seq<Slot> { Emit(IPartialCommit(2)) + c }

  function LoopTestCode(f: First, c: seq<Slot>): seq<Slot> {
    GenTest(f, TestSize(f) + |c| + 2) + (c + Emit(IJmp(-(TestSize(f) + |c|))))
  }

  function LoopCode(f: First, opt: bool, c: seq<Slot>): seq<Slot> {
    var k := 2 + |c| + 2;
    GenTest(f, TestSize(f) + k) +
    (Emit(if opt then IPartialCommit(2) else IChoice(k)) + (c + Emit(IPartialCommit(-|c|))))
  }

  function BehindCode(n: nat, c: seq<Slot>): seq<Slot> {
    (if n > 0 then Emit(IBehind(n)) else []) + c
  }

  function NotTestCode(f: First): seq<Slot> { GenTest(f, TestSize(f) + 1) + Emit(IFail) }

  function NotCode(f: First, c: seq<Slot>): seq<Slot> {
    var k := 2 + |c| + 1;
    GenTest(f, TestSize(f) + k) + (Emit(IChoice(k)) + (c + Emit(IFailTwice)))
  }

  function AndFixedCode(n: nat, c: seq<Slot>): seq<Slot> {
    c + (if n > 0 then Emit(IBehind(n)) else [])
  }

  function AndCode(c: seq<Slot>): seq<Slot> {
    Emit(IChoice(2 + |c| + 2)) + (c + (Emit(IBackCommit(3)) + Emit(IFail)))
  }

  /** The code of `t`. `opt` says that it is the end of an option, `tt` is the test
      that dominates it and `fl` its follow set. */
  function Gen(t: Tree, opt: bool, tt: Test, fl: Charset): seq<Slot>
    decreases t
  {
    match t
    case TChar(c) => GenChar(c, tt)
    case TAny => Emit(IAny)
    case TSet(cs) => GenCharset(cs, tt)
    case TTrue => []
    case TFalse => Emit(IFail)
    case TChoice(p, q) =>
      var f := GetFirst(p, Full());
      if ChoiceByTest(p, q, fl) then
        ChoiceTestCode(NoEmpty(f), Gen(p, false, TestAfter(NoEmpty(f)), fl), Gen(q, opt, NoTest, fl), q.TTrue?)
      else if opt && q.TTrue? then ReuseCode(Gen(p, true, NoTest, Full()))
      else ChoiceCode(f, Gen(p, q.TTrue?, TestAfter(f), Full()), Gen(q, opt, NoTest, fl))
    case TRep(p) =>
      if ToCharset(p).Some? then Emit(ISpan(ToCharset(p).value))
      else
        var f := GetFirst(p, Full());
        if LoopByTest(p, fl) then LoopTestCode(NoEmpty(f), Gen(p, opt, TestAfter(NoEmpty(f)), Full()))
        else LoopCode(f, opt, Gen(p, false, NoTest, Full()))
    case TBehind(n, p) => BehindCode(n, Gen(p, false, NoTest, Full()))
    case TNot(p) =>
      var f := GetFirst(p, Full());
      if HeadFail(p) then NotTestCode(f) else NotCode(f, Gen(p, false, NoTest, Full()))
    case TAnd(p) =>
      var n := FixedLen(p);
      var c := Gen(p, false, tt, Full());
      if 0 <= n <= MAXBEHIND then AndFixedCode(n, c) else AndCode(c)
    case TSeq(p, q) =>
      var tt2 := if FixedLen(p) != 0 then NoTest else tt;
      Gen(p, false, tt, FollowOf(p, q, fl)) + Gen(q, opt, tt2, fl)
  }

  /** The code array that `compile` builds before the peephole pass. */
  function Compile(t: Tree): seq<Slot> {
    Gen(t, false, NoTest, Full()) + Emit(IEnd)
  }
}
