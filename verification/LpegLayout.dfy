/** How the machine runs through the shapes of generated code, given what it does
    in the code of the subtrees. */
module LpegLayout {
  import opened Wrappers
  import opened LpegTree
  import opened LpegAnalysis
  import opened LpegVM
  import opened LpegGen
  import opened LpegActual

  ghost predicate Embedded(code: seq<Slot>, a: int, f: seq<Slot>) {
    0 <= a && a + |f| <= |code| && code[a..a + |f|] == f
  }

  lemma Parts(code: seq<Slot>, a: int, f: seq<Slot>, g: seq<Slot>)
    requires Embedded(code, a, f + g)
    ensures Embedded(code, a, f) && Embedded(code, a + |f|, g)
  {
    var h := code[a..a + |f + g|];
    assert h[..|f|] == f && h[|f|..] == g;
    assert code[a..a + |f|] == h[..|f|];
    assert code[a + |f|..a + |f| + |g|] == h[|f|..];
  }

  lemma Parts3(code: seq<Slot>, a: int, f: seq<Slot>, g: seq<Slot>, h: seq<Slot>)
    requires Embedded(code, a, f + (g + h))
    ensures Embedded(code, a, f) && Embedded(code, a + |f|, g) && Embedded(code, a + |f| + |g|, h)
  {
    hide *;
    Parts(code, a, f, g + h);
    Parts(code, a + |f|, g, h);
  }

  lemma Parts4(code: seq<Slot>, a: int, f: seq<Slot>, g: seq<Slot>, h: seq<Slot>, k: seq<Slot>)
    requires Embedded(code, a, f + (g + (h + k)))
    ensures Embedded(code, a, f) && Embedded(code, a + |f|, g) && Embedded(code, a + |f| + |g|, h)
    ensures Embedded(code, a + |f| + |g| + |h|, k)
  {
    hide *;
    Parts(code, a, f, g + (h + k));
    Parts3(code, a + |f|, g, h, k);
  }

  ghost predicate TestHolds(tt: Test, s: seq<Char>, i: nat) {
    match tt
    case NoTest => true
    case TestChar(c) => i < |s| && s[i] == c
    case TestSet(cs) => i < |s| && s[i] in cs
  }

  /** A pattern with result `m` that the machine may fail although it succeeds,
      because what comes after it cannot follow. */
  ghost predicate Excused(s: seq<Char>, fl: Charset, m: Option<nat>) {
    m.Some? ==> m.value < |s| && s[m.value] !in fl
  }

  /** Where the machine may get to from `x` if the code up to `b` implements a
      pattern with result `m` and follow set `fl`: it agrees with the pattern, or
      it fails in front of a character that cannot follow. */
  ghost predicate Outcome(code: seq<Slot>, s: seq<Char>, x: State, b: int, st: seq<Entry>, fl: Charset, m: Option<nat>) {
    || (m.Some? && Reaches(code, s, x, Running(b, m.value, st)))
    || (Excused(s, fl, m) && Reaches(code, s, x, Fail(st)))
  }

  /** Where the machine gets to from `x` in code up to `b` at the end of an option, whose choice
      leads to `l` and lies on `st`. */
  ghost predicate OptOutcome(code: seq<Slot>, s: seq<Char>, x: State, b: int, l: int, st: seq<Entry>, e: Ending) {
    match e
    case Falls(j, k) => Reaches(code, s, x, Running(b, j, st + [Entry(l, k)]))
    case Leaves(j) => Reaches(code, s, x, Running(l, j, st))
  }

  lemma Later(code: seq<Slot>, s: seq<Char>, x: State, y: State, b: int, st: seq<Entry>, fl: Charset, m: Option<nat>)
    requires Reaches(code, s, x, y)
    requires Outcome(code, s, y, b, st, fl, m)
    ensures Outcome(code, s, x, b, st, fl, m)
  {
    hide Reaches, Fail, Excused;
    if m.Some? && Reaches(code, s, y, Running(b, m.value, st)) { Then(code, s, x, y, Running(b, m.value, st)); }
    else { Then(code, s, x, y, Fail(st)); }
  }

  lemma OptLater(code: seq<Slot>, s: seq<Char>, x: State, y: State, b: int, l: int, st: seq<Entry>, e: Ending)
    requires Reaches(code, s, x, y)
    requires OptOutcome(code, s, y, b, l, st, e)
    ensures OptOutcome(code, s, x, b, l, st, e)
  {
    hide Reaches;
    Then(code, s, x, y, if e.Falls? then Running(b, e.pos, st + [Entry(l, e.saved)]) else Running(l, e.pos, st));
  }

  lemma PopLast(st: seq<Entry>, e: Entry)
    ensures (st + [e])[..|st|] == st && Fail(st + [e]) == Running(e.p, e.s, st)
  {
  }

  /** Exact code is also code at the end of an option. */
  lemma ExactIsOpt(code: seq<Slot>, s: seq<Char>, x: State, b: int, l: int, sp: nat, st: seq<Entry>, m: Option<nat>)
    requires Outcome(code, s, x, b, st + [Entry(l, sp)], Full(), m)
    ensures OptOutcome(code, s, x, b, l, st, if m.Some? then Falls(m.value, sp) else Leaves(sp))
  {
    hide Reaches, Fail;
    PopLast(st, Entry(l, sp));
  }

  /** One instruction. */
  lemma Goes(code: seq<Slot>, s: seq<Char>, a: int, inst: Inst, i: nat, st: seq<Entry>)
    requires i <= |s|
    requires Embedded(code, a, Emit(inst))
    ensures Reaches(code, s, Running(a, i, st), Exec(inst, s, a, i, st))
  {
    assert code[a..a + |Emit(inst)|][0] == code[a];
    One(code, s, Running(a, i, st));
  }

  lemma GoesAfter(code: seq<Slot>, s: seq<Char>, x: State, a: int, inst: Inst, i: nat, st: seq<Entry>)
    requires i <= |s|
    requires Embedded(code, a, Emit(inst))
    requires Reaches(code, s, x, Running(a, i, st))
    ensures Reaches(code, s, x, Exec(inst, s, a, i, st))
  {
    hide *;
    Goes(code, s, a, inst, i, st);
    Then(code, s, x, Running(a, i, st), Exec(inst, s, a, i, st));
  }

  /** The test instruction lets the machine through or jumps. */
  lemma TestGoes(f: First, offset: int, code: seq<Slot>, s: seq<Char>, a: int, i: nat, st: seq<Entry>)
    requires i <= |s|
    requires Embedded(code, a, GenTest(f, offset))
    ensures Passes(f, s, i) ==>
              && Reaches(code, s, Running(a, i, st), Running(a + TestSize(f), i, st))
              && TestHolds(TestAfter(f), s, i)
    ensures !Passes(f, s, i) ==> Reaches(code, s, Running(a, i, st), Running(a + offset, i, st))
  {
    hide Reaches;
    if f.e { Now(code, s, Running(a, i, st)); } else { Goes(code, s, a, TestInst(f.cs, offset), i, st); }
  }

  // What each control instruction does to a machine that arrives at it.

  lemma JmpGoes(code: seq<Slot>, s: seq<Char>, x: State, a: int, offset: int, i: nat, st: seq<Entry>)
    requires i <= |s| && Embedded(code, a, Emit(IJmp(offset)))
    requires Reaches(code, s, x, Running(a, i, st))
    ensures Reaches(code, s, x, Running(a + offset, i, st))
  {
    hide Embedded, Reaches, Emit;
    GoesAfter(code, s, x, a, IJmp(offset), i, st);
  }

  lemma ChoiceGoes(code: seq<Slot>, s: seq<Char>, x: State, a: int, offset: int, i: nat, st: seq<Entry>)
    requires i <= |s| && Embedded(code, a, Emit(IChoice(offset)))
    requires Reaches(code, s, x, Running(a, i, st))
    ensures Reaches(code, s, x, Running(a + 2, i, st + [Entry(a + offset, i)]))
  {
    hide Embedded, Reaches, Emit;
    GoesAfter(code, s, x, a, IChoice(offset), i, st);
  }

  lemma CommitGoes(code: seq<Slot>, s: seq<Char>, x: State, a: int, offset: int, i: nat, st: seq<Entry>, e: Entry)
    requires i <= |s| && Embedded(code, a, Emit(ICommit(offset)))
    requires Reaches(code, s, x, Running(a, i, st + [e]))
    ensures Reaches(code, s, x, Running(a + offset, i, st))
  {
    hide Embedded, Reaches, Emit;
    GoesAfter(code, s, x, a, ICommit(offset), i, st + [e]);
    PopLast(st, e);
  }

  lemma PartialCommitGoes(code: seq<Slot>, s: seq<Char>, x: State, a: int, offset: int, i: nat, st: seq<Entry>, e: Entry)
    requires i <= |s| && Embedded(code, a, Emit(IPartialCommit(offset)))
    requires Reaches(code, s, x, Running(a, i, st + [e]))
    ensures Reaches(code, s, x, Running(a + offset, i, st + [Entry(e.p, i)]))
  {
    hide Embedded, Reaches, Emit;
    GoesAfter(code, s, x, a, IPartialCommit(offset), i, st + [e]);
    assert (st + [e])[|st| := Entry(e.p, i)] == st + [Entry(e.p, i)];
  }

  lemma BackCommitGoes(code: seq<Slot>, s: seq<Char>, x: State, a: int, offset: int, i: nat, st: seq<Entry>, e: Entry)
    requires i <= |s| && Embedded(code, a, Emit(IBackCommit(offset)))
    requires Reaches(code, s, x, Running(a, i, st + [e]))
    ensures Reaches(code, s, x, Running(a + offset, e.s, st))
  {
    hide Embedded, Reaches, Emit;
    GoesAfter(code, s, x, a, IBackCommit(offset), i, st + [e]);
    PopLast(st, e);
  }

  lemma FailGoes(code: seq<Slot>, s: seq<Char>, x: State, a: int, i: nat, st: seq<Entry>)
    requires i <= |s| && Embedded(code, a, Emit(IFail))
    requires Reaches(code, s, x, Running(a, i, st))
    ensures Reaches(code, s, x, Fail(st))
  {
    hide Embedded, Reaches, Emit;
    GoesAfter(code, s, x, a, IFail, i, st);
  }

  lemma FailTwiceGoes(code: seq<Slot>, s: seq<Char>, x: State, a: int, i: nat, st: seq<Entry>, e: Entry)
    requires i <= |s| && Embedded(code, a, Emit(IFailTwice))
    requires Reaches(code, s, x, Running(a, i, st + [e]))
    ensures Reaches(code, s, x, Fail(st))
  {
    hide Embedded, Reaches, Emit;
    GoesAfter(code, s, x, a, IFailTwice, i, st + [e]);
    PopLast(st, e);
  }

  lemma BehindGoes(code: seq<Slot>, s: seq<Char>, x: State, a: int, n: nat, i: nat, st: seq<Entry>)
    requires i <= |s| && Embedded(code, a, Emit(IBehind(n)))
    requires Reaches(code, s, x, Running(a, i, st))
    ensures Reaches(code, s, x, if n <= i then Running(a + 1, i - n, st) else Fail(st))
  {
    hide Embedded, Reaches, Emit;
    GoesAfter(code, s, x, a, IBehind(n), i, st);
  }

  // Where the parts of each shape are.

  lemma ChoiceTestParts(f: First, c1: seq<Slot>, c2: seq<Slot>, emptyq: bool, code: seq<Slot>, a: int)
    requires Embedded(code, a, ChoiceTestCode(f, c1, c2, emptyq))
    ensures
      var jmp := if emptyq then 0 else 2;
      && |ChoiceTestCode(f, c1, c2, emptyq)| == TestSize(f) + |c1| + jmp + |c2|
      && Embedded(code, a, GenTest(f, TestSize(f) + |c1| + jmp))
      && Embedded(code, a + TestSize(f), c1)
      && (!emptyq ==> Embedded(code, a + TestSize(f) + |c1|, Emit(IJmp(2 + |c2|))))
      && Embedded(code, a + TestSize(f) + |c1| + jmp, c2)
  {
    hide Embedded, GenTest, Emit;
    var jmp := if emptyq then [] else Emit(IJmp(2 + |c2|));
    Parts4(code, a, GenTest(f, TestSize(f) + |c1| + |jmp|), c1, jmp, c2);
  }

  lemma ChoiceParts(f: First, c1: seq<Slot>, c2: seq<Slot>, code: seq<Slot>, a: int)
    requires Embedded(code, a, ChoiceCode(f, c1, c2))
    ensures
      var k := 2 + |c1| + 2;
      var b := a + TestSize(f);
      && |ChoiceCode(f, c1, c2)| == TestSize(f) + k + |c2|
      && Embedded(code, a, GenTest(f, TestSize(f) + k))
      && Embedded(code, b, Emit(IChoice(k)))
      && Embedded(code, b + 2, c1)
      && Embedded(code, b + 2 + |c1|, Emit(ICommit(2 + |c2|)))
      && Embedded(code, b + k, c2)
  {
    hide Embedded, GenTest, Emit;
    var k := 2 + |c1| + 2;
    Parts(code, a, GenTest(f, TestSize(f) + k), Emit(IChoice(k)) + (c1 + (Emit(ICommit(2 + |c2|)) + c2)));
    Parts4(code, a + TestSize(f), Emit(IChoice(k)), c1, Emit(ICommit(2 + |c2|)), c2);
  }

  lemma LoopTestParts(f: First, c: seq<Slot>, code: seq<Slot>, a: int)
    requires Embedded(code, a, LoopTestCode(f, c))
    ensures |LoopTestCode(f, c)| == TestSize(f) + |c| + 2
    ensures Embedded(code, a, GenTest(f, TestSize(f) + |c| + 2))
    ensures Embedded(code, a + TestSize(f), c)
    ensures Embedded(code, a + TestSize(f) + |c|, Emit(IJmp(-(TestSize(f) + |c|))))
  {
    hide Embedded, GenTest, Emit;
    Parts3(code, a, GenTest(f, TestSize(f) + |c| + 2), c, Emit(IJmp(-(TestSize(f) + |c|))));
  }

  lemma LoopParts(f: First, opt: bool, c: seq<Slot>, code: seq<Slot>, a: int)
    requires Embedded(code, a, LoopCode(f, opt, c))
    ensures
      var k := 2 + |c| + 2;
      var b := a + TestSize(f);
      && |LoopCode(f, opt, c)| == TestSize(f) + k
      && Embedded(code, a, GenTest(f, TestSize(f) + k))
      && Embedded(code, b, Emit(if opt then IPartialCommit(2) else IChoice(k)))
      && Embedded(code, b + 2, c)
      && Embedded(code, b + 2 + |c|, Emit(IPartialCommit(-|c|)))
  {
    hide Embedded, GenTest, Emit;
    var k := 2 + |c| + 2;
    var choice := if opt then IPartialCommit(2) else IChoice(k);
    Parts4(code, a, GenTest(f, TestSize(f) + k), Emit(choice), c, Emit(IPartialCommit(-|c|)));
  }

  lemma NotTestParts(f: First, code: seq<Slot>, a: int)
    requires Embedded(code, a, NotTestCode(f))
    ensures |NotTestCode(f)| == TestSize(f) + 1
    ensures Embedded(code, a, GenTest(f, TestSize(f) + 1))
    ensures Embedded(code, a + TestSize(f), Emit(IFail))
  {
    hide Embedded, GenTest, Emit;
    Parts(code, a, GenTest(f, TestSize(f) + 1), Emit(IFail));
  }

  lemma NotParts(f: First, c: seq<Slot>, code: seq<Slot>, a: int)
    requires Embedded(code, a, NotCode(f, c))
    ensures
      var k := 2 + |c| + 1;
      var b := a + TestSize(f);
      && |NotCode(f, c)| == TestSize(f) + k
      && Embedded(code, a, GenTest(f, TestSize(f) + k))
      && Embedded(code, b, Emit(IChoice(k)))
      && Embedded(code, b + 2, c)
      && Embedded(code, b + 2 + |c|, Emit(IFailTwice))
  {
    hide Embedded, GenTest, Emit;
    var k := 2 + |c| + 1;
    Parts4(code, a, GenTest(f, TestSize(f) + k), Emit(IChoice(k)), c, Emit(IFailTwice));
  }

  lemma AndParts(c: seq<Slot>, code: seq<Slot>, a: int)
    requires Embedded(code, a, AndCode(c))
    ensures
      var k := 2 + |c| + 2;
      && |AndCode(c)| == k + 1
      && Embedded(code, a, Emit(IChoice(k)))
      && Embedded(code, a + 2, c)
      && Embedded(code, a + 2 + |c|, Emit(IBackCommit(3)))
      && Embedded(code, a + k, Emit(IFail))
  {
    hide Embedded, Emit;
    Parts4(code, a, Emit(IChoice(2 + |c| + 2)), c, Emit(IBackCommit(3)), Emit(IFail));
  }
}
