/** The generated code, run by the machine, gets to where LpegActual says. */
module LpegCorrect {
  import opened Wrappers
  import opened LpegTree
  import opened LpegAnalysis
  import opened LpegVM
  import opened LpegGen
  import opened LpegActual
  import opened LpegLayout

  // What the analyses say about the tests in the generated code.

  lemma NotExcusedFromFull(s: seq<Char>, m: Option<nat>)
    ensures Excused(s, Full(), m) <==> m.None?
  {
  }

  lemma FirstFacts(p: Tree, g: Charset, s: seq<Char>, i: nat)
    requires WellFormed(p) && i <= |s|
    ensures !Passes(GetFirst(p, Full()), s, i) ==> Actual(p, g, s, i) == None
  {
    hide *;
    if !Passes(GetFirst(p, Full()), s, i) { ActualTest(p, g, s, i); }
  }

  lemma SeqFacts(q: Tree, fl: Charset, s: seq<Char>, j: nat)
    requires WellFormed(q) && j <= |s|
    requires Excused(s, GetFirst(q, fl).cs, Some(j))
    ensures Excused(s, fl, Actual(q, fl, s, j))
  {
    hide Actual, GetFirst;
    if Actual(q, fl, s, j).Some? { ActualFirst(q, fl, fl, s, j); }
  }

  lemma NotInBoth(a: Charset, b: Charset, c: Char)
    requires Disjoint(a, b) && c in a
    ensures c !in b
  {
    assert c in a * b <==> c in b;
  }

  lemma ChoiceTestFacts(p: Tree, q: Tree, fl: Charset, s: seq<Char>, i: nat)
    requires WellFormed(p) && WellFormed(q) && i <= |s|
    requires ChoiceByTest(p, q, fl)
    ensures
      var f := NoEmpty(GetFirst(p, Full()));
      && (!Passes(f, s, i) ==> Actual(p, fl, s, i) == None)
      && (Passes(f, s, i) && Actual(p, fl, s, i) == None ==> Excused(s, fl, Actual(q, fl, s, i)))
  {
    hide Actual, WellFormed;
    var f := NoEmpty(GetFirst(p, Full()));
    if HeadFail(p) { ActualHeadFail(p, fl, s, i); }
    else if !Passes(f, s, i) { ActualTest(p, fl, s, i); }
    else {
      NotInBoth(f.cs, GetFirst(q, fl).cs, s[i]);
      SeqFacts(q, fl, s, i);
    }
  }

  lemma LoopTestFacts(p: Tree, fl: Charset, s: seq<Char>, i: nat)
    requires WellFormed(p) && i <= |s|
    requires LoopByTest(p, fl)
    ensures
      var f := NoEmpty(GetFirst(p, Full()));
      && (!Passes(f, s, i) ==> Actual(p, Full(), s, i) == None)
      && (Passes(f, s, i) && Actual(p, Full(), s, i) == None ==> Excused(s, fl, Some(i)))
  {
    hide Actual, WellFormed;
    var f := NoEmpty(GetFirst(p, Full()));
    if HeadFail(p) { ActualHeadFail(p, Full(), s, i); }
    else if !Passes(f, s, i) { ActualTest(p, Full(), s, i); }
    else { NotInBoth(f.cs, fl, s[i]); }
  }

  /** A head-fail pattern never accepts the empty string. */
  lemma {:induction false} HeadFailNotEmpty(t: Tree, fl: Charset)
    requires HeadFail(t)
    ensures !GetFirst(t, fl).e
  {
    match t
    case TAnd(p) => HeadFailNotEmpty(p, fl);
    case TSeq(p, q) =>
      if Nullable(p) { HeadFailNotEmpty(p, GetFirst(q, fl).cs); } else { HeadFailNotEmpty(p, Full()); }
    case TChoice(p, q) => HeadFailNotEmpty(p, fl); HeadFailNotEmpty(q, fl);
    case _ =>
  }

  lemma NotTestFacts(p: Tree, s: seq<Char>, i: nat)
    requires i <= |s| && HeadFail(p)
    ensures Passes(GetFirst(p, Full()), s, i) <==> Actual(p, Full(), s, i).Some?
  {
    hide Actual;
    HeadFailNotEmpty(p, Full());
    ActualHeadFail(p, Full(), s, i);
  }

  lemma LoopAdvances(p: Tree, fl: Charset, s: seq<Char>, i: nat)
    requires WellFormed(TRep(p)) && i <= |s|
    ensures WellFormed(p)
    ensures
      var m := Actual(p, Full(), s, i);
      && Actual(TRep(p), fl, s, i).Some?
      && (m.None? ==> Actual(TRep(p), fl, s, i) == Some(i))
      && (m.Some? ==> i < m.value && Actual(TRep(p), fl, s, i) == Actual(TRep(p), fl, s, m.value))
  {
    hide AsOption, GetFirst, FollowOf;
    if Actual(p, Full(), s, i) == Some(i) { ActualNullable(p, Full(), s, i); }
  }

  lemma {:induction false} SpanIsRep(p: Tree, fl: Charset, s: seq<Char>, i: nat)
    requires i <= |s| && ToCharset(p).Some?
    ensures Actual(TRep(p), fl, s, i) == Some(SpanEnd(ToCharset(p).value, s, i))
    decreases |s| - i
  {
    hide AsOption, GetFirst, FollowOf;
    if i < |s| && s[i] in ToCharset(p).value {
      assert Actual(p, Full(), s, i) == Some(i + 1);
      SpanIsRep(p, fl, s, i + 1);
    } else {
      assert Actual(p, Full(), s, i) == None;
    }
  }

  // Single instructions.

  lemma CharCorrect(c: Char, tt: Test, fl: Charset, code: seq<Slot>, s: seq<Char>, a: int, i: nat, st: seq<Entry>)
    requires i <= |s| && TestHolds(tt, s, i)
    requires Embedded(code, a, GenChar(c, tt))
    ensures Outcome(code, s, Running(a, i, st), a + |GenChar(c, tt)|, st, fl, Match(TChar(c), s, i))
  {
    hide Reaches, Embedded;
    Goes(code, s, a, if tt == TestChar(c) then IAny else IChar(c), i, st);
  }

  lemma CharsetCorrect(cs: Charset, tt: Test, fl: Charset, code: seq<Slot>, s: seq<Char>, a: int, i: nat, st: seq<Entry>)
    requires i <= |s| && TestHolds(tt, s, i)
    requires Embedded(code, a, GenCharset(cs, tt))
    ensures Outcome(code, s, Running(a, i, st), a + |GenCharset(cs, tt)|, st, fl, Match(TSet(cs), s, i))
  {
    hide Reaches, Embedded;
    match CharsetType(cs)
    case CChar(c) => CharCorrect(c, tt, fl, code, s, a, i, st);
    case CSet => Goes(code, s, a, if tt == TestSet(cs) then IAny else ISet(cs), i, st);
    case CFail => Goes(code, s, a, IFail, i, st);
    case CAny => Goes(code, s, a, IAny, i, st);
  }

  lemma LeafCorrect(t: Tree, opt: bool, tt: Test, fl: Charset, code: seq<Slot>, s: seq<Char>, a: int, i: nat, st: seq<Entry>)
    requires t.TChar? || t.TSet? || t.TAny? || t.TTrue? || t.TFalse? || (t.TRep? && ToCharset(t.body).Some?)
    requires i <= |s| && TestHolds(tt, s, i)
    requires Embedded(code, a, Gen(t, opt, tt, fl))
    ensures Outcome(code, s, Running(a, i, st), a + |Gen(t, opt, tt, fl)|, st, fl, Actual(t, fl, s, i))
  {
    hide Reaches, Embedded, Fail;
    match t
    case TChar(c) => CharCorrect(c, tt, fl, code, s, a, i, st);
    case TSet(cs) => CharsetCorrect(cs, tt, fl, code, s, a, i, st);
    case TAny => Goes(code, s, a, IAny, i, st);
    case TTrue => Now(code, s, Running(a, i, st));
    case TFalse => Goes(code, s, a, IFail, i, st);
    case TRep(p) =>
      Goes(code, s, a, ISpan(ToCharset(p).value), i, st);
      SpanIsRep(p, fl, s, i);
  }

  /** The code of a well-formed tree, entered under the test it was generated for, gets to
      where it should. */
  lemma {:induction false} GenCorrect(t: Tree, tt: Test, fl: Charset, code: seq<Slot>, s: seq<Char>, a: int, i: nat, st: seq<Entry>)
    requires WellFormed(t)
    requires i <= |s| && TestHolds(tt, s, i)
    requires Embedded(code, a, Gen(t, false, tt, fl))
    ensures Outcome(code, s, Running(a, i, st), a + |Gen(t, false, tt, fl)|, st, fl, Actual(t, fl, s, i))
    decreases t, |s| - i, 2
  {
    hide Gen, Actual, WellFormed, Embedded, Outcome, TestHolds, ChoiceByTest, LoopByTest;
    match t
    case TSeq(p, q) => SeqCorrect(p, q, tt, fl, code, s, a, i, st);
    case TChoice(p, q) =>
      if ChoiceByTest(p, q, fl) { ChoiceTestCorrect(p, q, tt, fl, code, s, a, i, st); }
      else { ChoiceCorrect(p, q, tt, fl, code, s, a, i, st); }
    case TRep(p) =>
      if ToCharset(p).Some? { LeafCorrect(t, false, tt, fl, code, s, a, i, st); }
      else if LoopByTest(p, fl) { LoopTestCorrect(p, tt, fl, code, s, a, i, st); }
      else { LoopCorrect(p, tt, fl, code, s, a, i, st); }
    case TNot(p) => NotCorrect(p, tt, fl, code, s, a, i, st);
    case TAnd(p) => AndCorrect(p, tt, fl, code, s, a, i, st);
    case TBehind(n, p) => BehindCorrect(n, p, tt, fl, code, s, a, i, st);
    case _ => LeafCorrect(t, false, tt, fl, code, s, a, i, st);
  }

  // One level of the definitions at each kind of tree.

  lemma SeqUnfold(p: Tree, q: Tree, opt: bool, tt: Test, fl: Charset, s: seq<Char>, i: nat)
    requires WellFormed(TSeq(p, q)) && i <= |s|
    ensures WellFormed(p) && WellFormed(q)
    ensures
      var m := Actual(p, FollowOf(p, q, fl), s, i);
      Actual(TSeq(p, q), fl, s, i) == if m.None? then None else Actual(q, fl, s, m.value)
    ensures Gen(TSeq(p, q), opt, tt, fl) ==
      Gen(p, false, tt, FollowOf(p, q, fl)) +
      Gen(q, opt, if FixedLen(p) != 0 then NoTest else tt, fl)
  {
    hide GetFirst, FixedLenX, CheckAux, HeadFail, CharsetType, NeedFollow;
  }

  lemma ChoiceUnfold(p: Tree, q: Tree, fl: Charset, s: seq<Char>, i: nat)
    requires WellFormed(TChoice(p, q)) && i <= |s|
    ensures WellFormed(p) && WellFormed(q)
    ensures
      var m := Actual(p, if ChoiceByTest(p, q, fl) then fl else Full(), s, i);
      Actual(TChoice(p, q), fl, s, i) ==
      if q.TTrue? && !ChoiceByTest(p, q, fl) then
        if Passes(GetFirst(p, Full()), s, i) then Some(AsOption(p, s, i, i).pos) else Some(i)
      else if m.Some? then m else Actual(q, fl, s, i)
    ensures q.TTrue? ==> Actual(q, fl, s, i) == Some(i)
  {
    hide GetFirst, FixedLenX, CheckAux, HeadFail, CharsetType, AsOption, ChoiceByTest, Passes, FollowOf;
  }

  lemma ChoiceGen(p: Tree, q: Tree, opt: bool, tt: Test, fl: Charset)
    ensures q.TTrue? ==> Gen(q, opt, NoTest, fl) == []
    ensures
      var f := GetFirst(p, Full());
      Gen(TChoice(p, q), opt, tt, fl) ==
      if ChoiceByTest(p, q, fl) then
        ChoiceTestCode(NoEmpty(f), Gen(p, false, TestAfter(NoEmpty(f)), fl), Gen(q, opt, NoTest, fl), q.TTrue?)
      else if opt && q.TTrue? then ReuseCode(Gen(p, true, NoTest, Full()))
      else ChoiceCode(f, Gen(p, q.TTrue?, TestAfter(f), Full()), Gen(q, opt, NoTest, fl))
  {
    hide GetFirst, ChoiceByTest, ChoiceTestCode, ChoiceCode, ReuseCode, TestAfter, FixedLenX, CheckAux;
  }

  lemma RepGen(p: Tree, opt: bool, tt: Test, fl: Charset)
    requires ToCharset(p).None?
    ensures
      var f := GetFirst(p, Full());
      Gen(TRep(p), opt, tt, fl) ==
      if LoopByTest(p, fl) then LoopTestCode(NoEmpty(f), Gen(p, opt, TestAfter(NoEmpty(f)), Full()))
      else LoopCode(f, opt, Gen(p, false, NoTest, Full()))
  {
    hide GetFirst, LoopByTest, LoopTestCode, LoopCode, TestAfter, FixedLenX, CheckAux;
  }

  lemma NotGen(p: Tree, tt: Test, fl: Charset)
    ensures
      var f := GetFirst(p, Full());
      Gen(TNot(p), false, tt, fl) == if HeadFail(p) then NotTestCode(f) else NotCode(f, Gen(p, false, NoTest, Full()))
  {
    hide GetFirst, HeadFail, NotTestCode, NotCode, FixedLenX, CheckAux;
  }

  lemma AndGen(p: Tree, tt: Test, fl: Charset)
    ensures
      var n := FixedLen(p);
      var c := Gen(p, false, tt, Full());
      Gen(TAnd(p), false, tt, fl) == if 0 <= n <= MAXBEHIND then AndFixedCode(n, c) else AndCode(c)
  {
    hide GetFirst, FixedLen, AndFixedCode, AndCode, CheckAux;
  }

  lemma BehindGen(n: nat, p: Tree, tt: Test, fl: Charset)
    ensures Gen(TBehind(n, p), false, tt, fl) == BehindCode(n, Gen(p, false, NoTest, Full()))
  {
    hide GetFirst, FixedLen, BehindCode, CheckAux, HeadFail, ChoiceByTest, LoopByTest, FollowOf, TestAfter, NoEmpty;
    hide GenChar, GenCharset, ChoiceTestCode, ChoiceCode, ReuseCode, LoopTestCode, LoopCode, NotTestCode, NotCode, AndCode, AndFixedCode;
  }

  lemma BodyUnfold(t: Tree)
    requires WellFormed(t)
    requires t.TRep? || t.TNot? || t.TAnd? || t.TBehind?
    ensures WellFormed(t.body)
    ensures t.TBehind? ==> t.n == FixedLen(t.body)
  {
  }

  lemma PredicateUnfold(t: Tree, fl: Charset, s: seq<Char>, i: nat)
    requires i <= |s|
    ensures t.TNot? ==> Actual(t, fl, s, i) == if Actual(t.body, Full(), s, i).Some? then None else Some(i)
    ensures t.TAnd? ==> Actual(t, fl, s, i) == if Actual(t.body, Full(), s, i).Some? then Some(i) else None
    ensures t.TBehind? ==>
      Actual(t, fl, s, i) == if t.n <= i && Actual(t.body, Full(), s, i - t.n).Some? then Some(i) else None
  {
  }

  lemma SeqCorrect(p: Tree, q: Tree, tt: Test, fl: Charset, code: seq<Slot>, s: seq<Char>, a: int, i: nat, st: seq<Entry>)
    requires WellFormed(TSeq(p, q))
    requires i <= |s| && TestHolds(tt, s, i)
    requires Embedded(code, a, Gen(TSeq(p, q), false, tt, fl))
    ensures Outcome(code, s, Running(a, i, st), a + |Gen(TSeq(p, q), false, tt, fl)|, st, fl, Actual(TSeq(p, q), fl, s, i))
    decreases TSeq(p, q), |s| - i, 1
  {
    hide Gen, Actual, AsOption, GetFirst, FixedLenX, NeedFollow, WellFormed, Embedded, Reaches, Excused, Fail;
    SeqUnfold(p, q, false, tt, fl, s, i);
    var fl1 := FollowOf(p, q, fl);
    var tt2 := if FixedLen(p) != 0 then NoTest else tt;
    var c1 := Gen(p, false, tt, fl1);
    var c2 := Gen(q, false, tt2, fl);
    Parts(code, a, c1, c2);
    GenCorrect(p, tt, fl1, code, s, a, i, st);
    var m := Actual(p, fl1, s, i);
    if m.Some? {
      var j := m.value;
      if FixedLen(p) == 0 { ActualFixedLen(p, 0, fl1, s, i); }
      if Reaches(code, s, Running(a, i, st), Running(a + |c1|, j, st)) {
        GenCorrect(q, tt2, fl, code, s, a + |c1|, j, st);
        Later(code, s, Running(a, i, st), Running(a + |c1|, j, st), a + |c1| + |c2|, st, fl, Actual(q, fl, s, j));
      } else if NeedFollow(p) {
        SeqFacts(q, fl, s, j);
      } else {
        NotExcusedFromFull(s, m);
      }
    } else {
      NotExcusedFromFull(s, m);
      ExcusedNone(s, fl);
    }
  }

  lemma ExcusedNone(s: seq<Char>, fl: Charset)
    ensures Excused(s, fl, None)
  {
  }

  lemma ChoiceTestCorrect(p: Tree, q: Tree, tt: Test, fl: Charset, code: seq<Slot>, s: seq<Char>, a: int, i: nat, st: seq<Entry>)
    requires WellFormed(TChoice(p, q))
    requires i <= |s| && ChoiceByTest(p, q, fl)
    requires Embedded(code, a, Gen(TChoice(p, q), false, tt, fl))
    ensures Outcome(code, s, Running(a, i, st), a + |Gen(TChoice(p, q), false, tt, fl)|, st, fl, Actual(TChoice(p, q), fl, s, i))
    decreases TChoice(p, q), |s| - i, 1
  {
    hide Gen, Actual, AsOption, GetFirst, WellFormed, HeadFail, ChoiceByTest, Embedded, Reaches, Fail, Excused,
      Passes, TestHolds, TestAfter, TestSize, NoEmpty, GenTest, Emit, ChoiceTestCode;
    var f := NoEmpty(GetFirst(p, Full()));
    var c1 := Gen(p, false, TestAfter(f), fl);
    var c2 := Gen(q, false, NoTest, fl);
    var jmp := if q.TTrue? then 0 else 2;
    var x := Running(a, i, st);
    var b1 := a + TestSize(f);
    var b2 := b1 + |c1|;
    var b := b2 + jmp + |c2|;
    ChoiceUnfold(p, q, fl, s, i);
    ChoiceGen(p, q, false, tt, fl);
    ChoiceTestParts(f, c1, c2, q.TTrue?, code, a);
    ChoiceTestFacts(p, q, fl, s, i);
    TestGoes(f, TestSize(f) + |c1| + jmp, code, s, a, i, st);
    var m := Actual(p, fl, s, i);
    if Passes(f, s, i) {
      GenCorrect(p, TestAfter(f), fl, code, s, b1, i, st);
      Later(code, s, x, Running(b1, i, st), b2, st, fl, m);
      if m.Some? && Reaches(code, s, x, Running(b2, m.value, st)) && !q.TTrue? {
        JmpGoes(code, s, x, b2, 2 + |c2|, m.value, st);
      }
    } else {
      AnyTest(s, i);
      GenCorrect(q, NoTest, fl, code, s, b2 + jmp, i, st);
      Later(code, s, x, Running(b2 + jmp, i, st), b, st, fl, Actual(q, fl, s, i));
    }
  }

  lemma ChoiceCorrect(p: Tree, q: Tree, tt: Test, fl: Charset, code: seq<Slot>, s: seq<Char>, a: int, i: nat, st: seq<Entry>)
    requires WellFormed(TChoice(p, q))
    requires i <= |s| && !ChoiceByTest(p, q, fl)
    requires Embedded(code, a, Gen(TChoice(p, q), false, tt, fl))
    ensures Outcome(code, s, Running(a, i, st), a + |Gen(TChoice(p, q), false, tt, fl)|, st, fl, Actual(TChoice(p, q), fl, s, i))
    decreases TChoice(p, q), |s| - i, 1
  {
    hide Gen, Actual, AsOption, GetFirst, WellFormed, HeadFail, Embedded, Reaches, Fail, Excused,
      Passes, TestHolds, TestAfter, TestSize, GenTest, Emit, ChoiceCode;
    var f := GetFirst(p, Full());
    var c1 := Gen(p, q.TTrue?, TestAfter(f), Full());
    var c2 := Gen(q, false, NoTest, fl);
    var k := 2 + |c1| + 2;
    var x := Running(a, i, st);
    var b1 := a + TestSize(f);
    var b2 := b1 + 2 + |c1|;
    var l := b1 + k;
    ChoiceUnfold(p, q, fl, s, i);
    ChoiceGen(p, q, false, tt, fl);
    ChoiceParts(f, c1, c2, code, a);
    FirstFacts(p, Full(), s, i);
    TestGoes(f, TestSize(f) + k, code, s, a, i, st);
    var m := Actual(p, Full(), s, i);
    var e := AsOption(p, s, i, i);
    if Passes(f, s, i) {
      ChoiceGoes(code, s, x, b1, k, i, st);
      var y := Running(b1 + 2, i, st + [Entry(l, i)]);
      if q.TTrue? {
        GenOptCorrect(p, TestAfter(f), code, s, b1 + 2, i, l, i, st);
        OptLater(code, s, x, y, b2, l, st, e);
        OptionEnds(code, s, x, b2, l, st, e);
      } else {
        GenCorrect(p, TestAfter(f), Full(), code, s, b1 + 2, i, st + [Entry(l, i)]);
        Later(code, s, x, y, b2, st + [Entry(l, i)], Full(), m);
        AlternativeEnds(code, s, x, b2, 2 + |c2|, l, i, st, m);
      }
    }
    if if q.TTrue? then !Passes(f, s, i) else m.None? {
      AnyTest(s, i);
      GenCorrect(q, NoTest, fl, code, s, l, i, st);
      Later(code, s, x, Running(l, i, st), l + |c2|, st, fl, Actual(q, fl, s, i));
    }
  }

  /** The end of an alternative under its own choice. */
  lemma AlternativeEnds(code: seq<Slot>, s: seq<Char>, x: State, b: int, offset: int, l: int, i: nat, st: seq<Entry>, m: Option<nat>)
    requires Outcome(code, s, x, b, st + [Entry(l, i)], Full(), m)
    requires Embedded(code, b, Emit(ICommit(offset)))
    requires m.Some? ==> m.value <= |s|
    ensures m.Some? ==> Reaches(code, s, x, Running(b + offset, m.value, st))
    ensures m.None? ==> Reaches(code, s, x, Running(l, i, st))
  {
    hide Embedded, Reaches, Fail, Excused, Emit;
    NotExcusedFromFull(s, m);
    PopLast(st, Entry(l, i));
    if m.Some? { CommitGoes(code, s, x, b, offset, m.value, st, Entry(l, i)); }
  }

  /** The end of an option: its commit and its choice lead to the same place. */
  lemma OptionEnds(code: seq<Slot>, s: seq<Char>, x: State, b: int, l: int, st: seq<Entry>, e: Ending)
    requires OptOutcome(code, s, x, b, l, st, e)
    requires Embedded(code, b, Emit(ICommit(2))) && l == b + 2
    requires e.pos <= |s|
    ensures Reaches(code, s, x, Running(l, e.pos, st))
  {
    hide Embedded, Reaches, Emit;
    if e.Falls? { CommitGoes(code, s, x, b, 2, e.pos, st, Entry(l, e.saved)); }
  }

  lemma LoopTestCorrect(p: Tree, tt: Test, fl: Charset, code: seq<Slot>, s: seq<Char>, a: int, i: nat, st: seq<Entry>)
    requires WellFormed(TRep(p))
    requires i <= |s| && ToCharset(p).None? && LoopByTest(p, fl)
    requires Embedded(code, a, Gen(TRep(p), false, tt, fl))
    ensures Outcome(code, s, Running(a, i, st), a + |Gen(TRep(p), false, tt, fl)|, st, fl, Actual(TRep(p), fl, s, i))
    decreases TRep(p), |s| - i, 1
  {
    hide Gen, Actual, AsOption, GetFirst, WellFormed, LoopByTest, Embedded, Reaches, Fail, Excused,
      Passes, TestHolds, TestAfter, TestSize, NoEmpty, GenTest, Emit, LoopTestCode;
    var f := NoEmpty(GetFirst(p, Full()));
    var c := Gen(p, false, TestAfter(f), Full());
    var x := Running(a, i, st);
    var b1 := a + TestSize(f);
    LoopAdvances(p, fl, s, i);
    BodyUnfold(TRep(p));
    RepGen(p, false, tt, fl);
    LoopTestParts(f, c, code, a);
    LoopTestFacts(p, fl, s, i);
    TestGoes(f, TestSize(f) + |c| + 2, code, s, a, i, st);
    var m := Actual(p, Full(), s, i);
    if Passes(f, s, i) {
      GenCorrect(p, TestAfter(f), Full(), code, s, b1, i, st);
      Later(code, s, x, Running(b1, i, st), b1 + |c|, st, Full(), m);
      NotExcusedFromFull(s, m);
      if m.Some? {
        JmpGoes(code, s, x, b1 + |c|, -(TestSize(f) + |c|), m.value, st);
        LoopTestCorrect(p, tt, fl, code, s, a, m.value, st);
        Later(code, s, x, Running(a, m.value, st), b1 + |c| + 2, st, fl, Actual(TRep(p), fl, s, m.value));
      }
    }
  }

  /** The loop under a choice that jumps to `l2`: whenever the body fails, the
      machine leaves at the position reached so far. */
  lemma LoopBody(p: Tree, fl: Charset, code: seq<Slot>, s: seq<Char>, l1: int, i: nat, l2: int, st: seq<Entry>)
    requires WellFormed(TRep(p))
    requires i <= |s|
    requires Embedded(code, l1, Gen(p, false, NoTest, Full()))
    requires Embedded(code, l1 + |Gen(p, false, NoTest, Full())|, Emit(IPartialCommit(-|Gen(p, false, NoTest, Full())|)))
    ensures Actual(TRep(p), fl, s, i).Some?
    ensures Reaches(code, s, Running(l1, i, st + [Entry(l2, i)]), Running(l2, Actual(TRep(p), fl, s, i).value, st))
    decreases TRep(p), |s| - i, 0
  {
    hide Gen, Actual, AsOption, WellFormed, Embedded, Reaches, Fail, Excused, Emit;
    var c := Gen(p, false, NoTest, Full());
    var e := Entry(l2, i);
    var x := Running(l1, i, st + [e]);
    LoopAdvances(p, fl, s, i);
    BodyUnfold(TRep(p));
    GenCorrect(p, NoTest, Full(), code, s, l1, i, st + [e]);
    var m := Actual(p, Full(), s, i);
    NotExcusedFromFull(s, m);
    PopLast(st, e);
    if m.Some? {
      PartialCommitGoes(code, s, x, l1 + |c|, -|c|, m.value, st, e);
      LoopBody(p, fl, code, s, l1, m.value, l2, st);
      Then(code, s, x, Running(l1, m.value, st + [Entry(l2, m.value)]), Running(l2, Actual(TRep(p), fl, s, m.value).value, st));
    }
  }

  lemma LoopCorrect(p: Tree, tt: Test, fl: Charset, code: seq<Slot>, s: seq<Char>, a: int, i: nat, st: seq<Entry>)
    requires WellFormed(TRep(p))
    requires i <= |s| && ToCharset(p).None? && !LoopByTest(p, fl)
    requires Embedded(code, a, Gen(TRep(p), false, tt, fl))
    ensures Outcome(code, s, Running(a, i, st), a + |Gen(TRep(p), false, tt, fl)|, st, fl, Actual(TRep(p), fl, s, i))
    decreases TRep(p), |s| - i, 1
  {
    hide Gen, Actual, AsOption, GetFirst, WellFormed, LoopByTest, Embedded, Reaches, Fail, Excused,
      Passes, TestHolds, TestAfter, TestSize, GenTest, Emit, LoopCode;
    var f := GetFirst(p, Full());
    var c := Gen(p, false, NoTest, Full());
    var k := 2 + |c| + 2;
    var x := Running(a, i, st);
    var b1 := a + TestSize(f);
    LoopAdvances(p, fl, s, i);
    BodyUnfold(TRep(p));
    RepGen(p, false, tt, fl);
    LoopParts(f, false, c, code, a);
    FirstFacts(p, Full(), s, i);
    TestGoes(f, TestSize(f) + k, code, s, a, i, st);
    if Passes(f, s, i) {
      ChoiceGoes(code, s, x, b1, k, i, st);
      LoopBody(p, fl, code, s, b1 + 2, i, b1 + k, st);
      Then(code, s, x, Running(b1 + 2, i, st + [Entry(b1 + k, i)]), Running(b1 + k, Actual(TRep(p), fl, s, i).value, st));
    }
  }

  lemma NotCorrect(p: Tree, tt: Test, fl: Charset, code: seq<Slot>, s: seq<Char>, a: int, i: nat, st: seq<Entry>)
    requires WellFormed(TNot(p))
    requires i <= |s|
    requires Embedded(code, a, Gen(TNot(p), false, tt, fl))
    ensures Outcome(code, s, Running(a, i, st), a + |Gen(TNot(p), false, tt, fl)|, st, fl, Actual(TNot(p), fl, s, i))
    decreases TNot(p), |s| - i, 1
  {
    hide Gen, Actual, AsOption, GetFirst, WellFormed, HeadFail, Embedded, Reaches, Fail, Excused,
      Passes, TestHolds, TestAfter, TestSize, GenTest, Emit, NotCode, NotTestCode;
    var f := GetFirst(p, Full());
    var x := Running(a, i, st);
    var b1 := a + TestSize(f);
    var m := Actual(p, Full(), s, i);
    PredicateUnfold(TNot(p), fl, s, i);
    BodyUnfold(TNot(p));
    NotGen(p, tt, fl);
    FirstFacts(p, Full(), s, i);
    ExcusedNone(s, fl);
    if HeadFail(p) {
      NotTestFacts(p, s, i);
      NotTestParts(f, code, a);
      TestGoes(f, TestSize(f) + 1, code, s, a, i, st);
      if Passes(f, s, i) { FailGoes(code, s, x, b1, i, st); }
    } else {
      var c := Gen(p, false, NoTest, Full());
      var k := 2 + |c| + 1;
      NotParts(f, c, code, a);
      TestGoes(f, TestSize(f) + k, code, s, a, i, st);
      if Passes(f, s, i) {
        var e := Entry(b1 + k, i);
        ChoiceGoes(code, s, x, b1, k, i, st);
        AnyTest(s, i);
        GenCorrect(p, NoTest, Full(), code, s, b1 + 2, i, st + [e]);
        Later(code, s, x, Running(b1 + 2, i, st + [e]), b1 + 2 + |c|, st + [e], Full(), m);
        NotExcusedFromFull(s, m);
        PopLast(st, e);
        if m.Some? { FailTwiceGoes(code, s, x, b1 + 2 + |c|, m.value, st, e); }
      }
    }
  }

  lemma AndCorrect(p: Tree, tt: Test, fl: Charset, code: seq<Slot>, s: seq<Char>, a: int, i: nat, st: seq<Entry>)
    requires WellFormed(TAnd(p))
    requires i <= |s| && TestHolds(tt, s, i)
    requires Embedded(code, a, Gen(TAnd(p), false, tt, fl))
    ensures Outcome(code, s, Running(a, i, st), a + |Gen(TAnd(p), false, tt, fl)|, st, fl, Actual(TAnd(p), fl, s, i))
    decreases TAnd(p), |s| - i, 1
  {
    hide Gen, Actual, AsOption, WellFormed, FixedLenX, Embedded, Reaches, Fail, Excused, TestHolds, Emit, AndCode;
    var n := FixedLen(p);
    var c := Gen(p, false, tt, Full());
    var x := Running(a, i, st);
    var m := Actual(p, Full(), s, i);
    PredicateUnfold(TAnd(p), fl, s, i);
    BodyUnfold(TAnd(p));
    AndGen(p, tt, fl);
    NotExcusedFromFull(s, m);
    ExcusedNone(s, fl);
    if 0 <= n <= MAXBEHIND {
      Parts(code, a, c, if n > 0 then Emit(IBehind(n)) else []);
      GenCorrect(p, tt, Full(), code, s, a, i, st);
      ActualFixedLen(p, 0, Full(), s, i);
      if m.Some? && n > 0 { BehindGoes(code, s, x, a + |c|, n, m.value, st); }
    } else {
      var k := 2 + |c| + 2;
      var e := Entry(a + k, i);
      AndParts(c, code, a);
      Now(code, s, x);
      ChoiceGoes(code, s, x, a, k, i, st);
      GenCorrect(p, tt, Full(), code, s, a + 2, i, st + [e]);
      Later(code, s, x, Running(a + 2, i, st + [e]), a + 2 + |c|, st + [e], Full(), m);
      PopLast(st, e);
      if m.Some? { BackCommitGoes(code, s, x, a + 2 + |c|, 3, m.value, st, e); }
      else { FailGoes(code, s, x, a + k, i, st); }
    }
  }

  lemma BehindCorrect(n: nat, p: Tree, tt: Test, fl: Charset, code: seq<Slot>, s: seq<Char>, a: int, i: nat, st: seq<Entry>)
    requires WellFormed(TBehind(n, p))
    requires i <= |s|
    requires Embedded(code, a, Gen(TBehind(n, p), false, tt, fl))
    ensures Outcome(code, s, Running(a, i, st), a + |Gen(TBehind(n, p), false, tt, fl)|, st, fl, Actual(TBehind(n, p), fl, s, i))
    decreases TBehind(n, p), |s| - i, 1
  {
    hide Gen, Actual, AsOption, WellFormed, FixedLenX, Embedded, Reaches, Fail, Excused, Emit;
    var back := if n > 0 then Emit(IBehind(n)) else [];
    var c := Gen(p, false, NoTest, Full());
    var x := Running(a, i, st);
    PredicateUnfold(TBehind(n, p), fl, s, i);
    BodyUnfold(TBehind(n, p));
    BehindGen(n, p, tt, fl);
    Parts(code, a, back, c);
    ExcusedNone(s, fl);
    Now(code, s, x);
    if n > 0 { BehindGoes(code, s, x, a, n, i, st); }
    if n <= i {
      var m := Actual(p, Full(), s, i - n);
      GenCorrect(p, NoTest, Full(), code, s, a + |back|, i - n, st);
      ActualFixedLen(p, 0, Full(), s, i - n);
      Later(code, s, x, Running(a + |back|, i - n, st), a + |back| + |c|, st, Full(), m);
      NotExcusedFromFull(s, m);
    }
  }

  // Code at the end of an option.

  /** One level of the definition, where the code at the end of an option is generated as elsewhere. */
  lemma ExactUnfold(t: Tree, tt: Test, s: seq<Char>, i: nat, saved: nat)
    requires saved <= i <= |s| && !t.TSeq? && !t.TChoice? && (t.TRep? ==> ToCharset(t.body).Some?)
    ensures Gen(t, true, tt, Full()) == Gen(t, false, tt, Full())
    ensures
      var m := Actual(t, Full(), s, i);
      AsOption(t, s, i, saved) == if m.Some? then Falls(m.value, saved) else Leaves(saved)
  {
    hide Actual, GetFirst, FixedLenX, CheckAux, HeadFail, LoopTestCode, LoopCode, BehindCode, NotCode, NotTestCode, AndCode,
      AndFixedCode, Emit, TestAfter, GenChar, GenCharset;
  }

  lemma OptionUnfold(t: Tree, s: seq<Char>, i: nat, saved: nat)
    requires saved <= i <= |s|
    ensures t.TSeq? ==>
      var m := Actual(t.first, FollowOf(t.first, t.second, Full()), s, i);
      AsOption(t, s, i, saved) == if m.None? then Leaves(saved) else AsOption(t.second, s, m.value, saved)
    ensures t.TChoice? && t.second.TTrue? && !ChoiceByTest(t.first, t.second, Full()) ==>
      AsOption(t, s, i, saved) == AsOption(t.first, s, i, i)
    ensures t.TChoice? && !(t.second.TTrue? && !ChoiceByTest(t.first, t.second, Full())) ==>
      var m := Actual(t.first, Full(), s, i);
      AsOption(t, s, i, saved) == if m.Some? then Falls(m.value, saved) else AsOption(t.second, s, i, saved)
  {
    hide Actual, GetFirst, HeadFail, FollowOf, ChoiceByTest;
  }

  lemma OptionLoopUnfold(p: Tree, s: seq<Char>, i: nat, saved: nat)
    requires saved <= i <= |s| && ToCharset(p).None? && WellFormed(TRep(p))
    ensures !LoopByTest(p, Full()) ==>
      AsOption(TRep(p), s, i, saved) ==
      if Passes(GetFirst(p, Full()), s, i) then Leaves(Actual(TRep(p), Full(), s, i).value) else Falls(i, saved)
    ensures LoopByTest(p, Full()) ==>
      var e := AsOption(p, s, i, saved);
      && (e.Falls? ==> i < e.pos)
      && AsOption(TRep(p), s, i, saved) ==
         if !Passes(NoEmpty(GetFirst(p, Full())), s, i) then Falls(i, saved)
         else if e.Leaves? then e else AsOption(TRep(p), s, e.pos, e.saved)
  {
    hide Actual, GetFirst, HeadFail, FollowOf, LoopByTest, Passes;
    var e := AsOption(p, s, i, saved);
    if e.Falls? && e.pos == i { OptionNullable(p, s, i, saved); }
  }

  /** Code at the end of an option, under the choice of the option, ends as it should: at its own
      end or through that choice. */
  lemma {:induction false} GenOptCorrect(t: Tree, tt: Test, code: seq<Slot>, s: seq<Char>, a: int, i: nat, l: int, sp: nat, st: seq<Entry>)
    requires WellFormed(t)
    requires sp <= i <= |s| && TestHolds(tt, s, i)
    requires Embedded(code, a, Gen(t, true, tt, Full()))
    ensures OptOutcome(code, s, Running(a, i, st + [Entry(l, sp)]), a + |Gen(t, true, tt, Full())|, l, st, AsOption(t, s, i, sp))
    decreases t, |s| - i, 4
  {
    hide Gen, Actual, AsOption, WellFormed, Embedded, OptOutcome, TestHolds, ChoiceByTest, LoopByTest;
    match t
    case TSeq(p, q) => OptSeqCorrect(p, q, tt, code, s, a, i, l, sp, st);
    case TChoice(p, q) =>
      if ChoiceByTest(p, q, Full()) { OptChoiceTestCorrect(p, q, tt, code, s, a, i, l, sp, st); }
      else if q.TTrue? { OptOptionCorrect(p, tt, code, s, a, i, l, sp, st); }
      else { OptChoiceCorrect(p, q, tt, code, s, a, i, l, sp, st); }
    case TRep(p) =>
      if ToCharset(p).Some? { OptExact(t, tt, code, s, a, i, l, sp, st); }
      else if LoopByTest(p, Full()) { OptLoopTestCorrect(p, tt, code, s, a, i, l, sp, st); }
      else { OptLoopCorrect(p, tt, code, s, a, i, l, sp, st); }
    case _ => OptExact(t, tt, code, s, a, i, l, sp, st);
  }

  lemma OptExact(t: Tree, tt: Test, code: seq<Slot>, s: seq<Char>, a: int, i: nat, l: int, sp: nat, st: seq<Entry>)
    requires WellFormed(t) && !t.TSeq? && !t.TChoice? && (t.TRep? ==> ToCharset(t.body).Some?)
    requires sp <= i <= |s| && TestHolds(tt, s, i)
    requires Embedded(code, a, Gen(t, true, tt, Full()))
    ensures OptOutcome(code, s, Running(a, i, st + [Entry(l, sp)]), a + |Gen(t, true, tt, Full())|, l, st, AsOption(t, s, i, sp))
    decreases t, |s| - i, 3
  {
    hide Gen, Actual, AsOption, WellFormed, Embedded, OptOutcome, Outcome, TestHolds;
    ExactUnfold(t, tt, s, i, sp);
    GenCorrect(t, tt, Full(), code, s, a, i, st + [Entry(l, sp)]);
    ExactIsOpt(code, s, Running(a, i, st + [Entry(l, sp)]), a + |Gen(t, true, tt, Full())|, l, sp, st, Actual(t, Full(), s, i));
  }

  /** The first half of a sequence may only fail where the second half leaves the option. */
  lemma OptionExcused(p: Tree, q: Tree, s: seq<Char>, j: nat, saved: nat)
    requires WellFormed(q) && saved <= j <= |s|
    requires Excused(s, FollowOf(p, q, Full()), Some(j))
    ensures AsOption(q, s, j, saved) == Leaves(saved)
  {
    hide AsOption, GetFirst, WellFormed;
    NotExcusedFromFull(s, Some(j));
    OptionTest(q, s, j, saved);
  }

  lemma OptSeqCorrect(p: Tree, q: Tree, tt: Test, code: seq<Slot>, s: seq<Char>, a: int, i: nat, l: int, sp: nat, st: seq<Entry>)
    requires WellFormed(TSeq(p, q))
    requires sp <= i <= |s| && TestHolds(tt, s, i)
    requires Embedded(code, a, Gen(TSeq(p, q), true, tt, Full()))
    ensures OptOutcome(code, s, Running(a, i, st + [Entry(l, sp)]), a + |Gen(TSeq(p, q), true, tt, Full())|, l, st, AsOption(TSeq(p, q), s, i, sp))
    decreases TSeq(p, q), |s| - i, 1
  {
    hide Gen, Actual, AsOption, GetFirst, FixedLenX, NeedFollow, WellFormed, Embedded, Reaches, Excused, Fail;
    SeqUnfold(p, q, true, tt, Full(), s, i);
    OptionUnfold(TSeq(p, q), s, i, sp);
    var fl1 := FollowOf(p, q, Full());
    var tt2 := if FixedLen(p) != 0 then NoTest else tt;
    var c1 := Gen(p, false, tt, fl1);
    var c2 := Gen(q, true, tt2, Full());
    var st1 := st + [Entry(l, sp)];
    var x := Running(a, i, st1);
    Parts(code, a, c1, c2);
    GenCorrect(p, tt, fl1, code, s, a, i, st1);
    PopLast(st, Entry(l, sp));
    var m := Actual(p, fl1, s, i);
    NotExcusedFromFull(s, m);
    if m.Some? {
      var j := m.value;
      if FixedLen(p) == 0 { ActualFixedLen(p, 0, fl1, s, i); }
      if Reaches(code, s, x, Running(a + |c1|, j, st1)) {
        GenOptCorrect(q, tt2, code, s, a + |c1|, j, l, sp, st);
        OptLater(code, s, x, Running(a + |c1|, j, st1), a + |c1| + |c2|, l, st, AsOption(q, s, j, sp));
      } else {
        OptionExcused(p, q, s, j, sp);
      }
    }
  }

  lemma OptChoiceTestFacts(p: Tree, q: Tree, s: seq<Char>, i: nat, saved: nat)
    requires WellFormed(p) && WellFormed(q) && saved <= i <= |s|
    requires ChoiceByTest(p, q, Full())
    requires Passes(NoEmpty(GetFirst(p, Full())), s, i) && Actual(p, Full(), s, i) == None
    ensures AsOption(q, s, i, saved) == Leaves(saved)
  {
    hide Actual, AsOption, WellFormed, GetFirst, HeadFail;
    if HeadFail(p) { ActualHeadFail(p, Full(), s, i); }
    else {
      NotInBoth(GetFirst(p, Full()).cs, GetFirst(q, Full()).cs, s[i]);
      OptionTest(q, s, i, saved);
    }
  }

  lemma OptChoiceTestCorrect(p: Tree, q: Tree, tt: Test, code: seq<Slot>, s: seq<Char>, a: int, i: nat, l: int, sp: nat, st: seq<Entry>)
    requires WellFormed(TChoice(p, q))
    requires sp <= i <= |s| && ChoiceByTest(p, q, Full())
    requires Embedded(code, a, Gen(TChoice(p, q), true, tt, Full()))
    ensures OptOutcome(code, s, Running(a, i, st + [Entry(l, sp)]), a + |Gen(TChoice(p, q), true, tt, Full())|, l, st,
              AsOption(TChoice(p, q), s, i, sp))
    decreases TChoice(p, q), |s| - i, 1
  {
    hide Gen, Actual, AsOption, GetFirst, WellFormed, HeadFail, ChoiceByTest, Embedded, Reaches, Fail, Excused,
      Passes, TestHolds, TestAfter, TestSize, NoEmpty, GenTest, Emit, ChoiceTestCode;
    var f := NoEmpty(GetFirst(p, Full()));
    var c1 := Gen(p, false, TestAfter(f), Full());
    var c2 := Gen(q, true, NoTest, Full());
    var jmp := if q.TTrue? then 0 else 2;
    var st1 := st + [Entry(l, sp)];
    var x := Running(a, i, st1);
    var b1 := a + TestSize(f);
    var b2 := b1 + |c1|;
    var b := b2 + jmp + |c2|;
    ChoiceUnfold(p, q, Full(), s, i);
    OptionUnfold(TChoice(p, q), s, i, sp);
    ChoiceGen(p, q, true, tt, Full());
    ChoiceTestParts(f, c1, c2, q.TTrue?, code, a);
    ChoiceTestFacts(p, q, Full(), s, i);
    TestGoes(f, TestSize(f) + |c1| + jmp, code, s, a, i, st1);
    var m := Actual(p, Full(), s, i);
    if Passes(f, s, i) {
      GenCorrect(p, TestAfter(f), Full(), code, s, b1, i, st1);
      Later(code, s, x, Running(b1, i, st1), b2, st1, Full(), m);
      NotExcusedFromFull(s, m);
      if m.None? { OptChoiceTestFacts(p, q, s, i, sp); }
      if m.Some? && !q.TTrue? { JmpGoes(code, s, x, b2, 2 + |c2|, m.value, st1); }
      PopLast(st, Entry(l, sp));
    } else {
      AnyTest(s, i);
      GenOptCorrect(q, NoTest, code, s, b2 + jmp, i, l, sp, st);
      OptLater(code, s, x, Running(b2 + jmp, i, st1), b, l, st, AsOption(q, s, i, sp));
    }
  }

  lemma OptOptionCorrect(p: Tree, tt: Test, code: seq<Slot>, s: seq<Char>, a: int, i: nat, l: int, sp: nat, st: seq<Entry>)
    requires WellFormed(TChoice(p, TTrue))
    requires sp <= i <= |s| && !ChoiceByTest(p, TTrue, Full())
    requires Embedded(code, a, Gen(TChoice(p, TTrue), true, tt, Full()))
    ensures OptOutcome(code, s, Running(a, i, st + [Entry(l, sp)]), a + |Gen(TChoice(p, TTrue), true, tt, Full())|, l,
              st, AsOption(TChoice(p, TTrue), s, i, sp))
    decreases TChoice(p, TTrue), |s| - i, 1
  {
    hide Gen, Actual, AsOption, GetFirst, WellFormed, HeadFail, ChoiceByTest, Embedded, Reaches, TestHolds, Emit;
    var c := Gen(p, true, NoTest, Full());
    var x := Running(a, i, st + [Entry(l, sp)]);
    ChoiceUnfold(p, TTrue, Full(), s, i);
    OptionUnfold(TChoice(p, TTrue), s, i, sp);
    ChoiceGen(p, TTrue, true, tt, Full());
    Parts(code, a, Emit(IPartialCommit(2)), c);
    Now(code, s, x);
    PartialCommitGoes(code, s, x, a, 2, i, st, Entry(l, sp));
    AnyTest(s, i);
    GenOptCorrect(p, NoTest, code, s, a + 2, i, l, i, st);
    OptLater(code, s, x, Running(a + 2, i, st + [Entry(l, i)]), a + 2 + |c|, l, st, AsOption(p, s, i, i));
  }

  lemma AnyTest(s: seq<Char>, i: nat)
    ensures TestHolds(NoTest, s, i)
  {
  }

  lemma OptChoiceCorrect(p: Tree, q: Tree, tt: Test, code: seq<Slot>, s: seq<Char>, a: int, i: nat, l: int, sp: nat, st: seq<Entry>)
    requires WellFormed(TChoice(p, q))
    requires sp <= i <= |s| && !ChoiceByTest(p, q, Full()) && !q.TTrue?
    requires Embedded(code, a, Gen(TChoice(p, q), true, tt, Full()))
    ensures OptOutcome(code, s, Running(a, i, st + [Entry(l, sp)]), a + |Gen(TChoice(p, q), true, tt, Full())|, l, st,
              AsOption(TChoice(p, q), s, i, sp))
    decreases TChoice(p, q), |s| - i, 1
  {
    hide Gen, Actual, AsOption, GetFirst, WellFormed, HeadFail, Embedded, Reaches, Fail, Excused,
      Passes, TestHolds, TestAfter, TestSize, GenTest, Emit, ChoiceCode;
    var f := GetFirst(p, Full());
    var c1 := Gen(p, false, TestAfter(f), Full());
    var c2 := Gen(q, true, NoTest, Full());
    var k := 2 + |c1| + 2;
    var st1 := st + [Entry(l, sp)];
    var x := Running(a, i, st1);
    var b1 := a + TestSize(f);
    var b2 := b1 + 2 + |c1|;
    var l1 := b1 + k;
    ChoiceUnfold(p, q, Full(), s, i);
    OptionUnfold(TChoice(p, q), s, i, sp);
    ChoiceGen(p, q, true, tt, Full());
    ChoiceParts(f, c1, c2, code, a);
    FirstFacts(p, Full(), s, i);
    AnyTest(s, i);
    TestGoes(f, TestSize(f) + k, code, s, a, i, st1);
    var m := Actual(p, Full(), s, i);
    if Passes(f, s, i) {
      ChoiceGoes(code, s, x, b1, k, i, st1);
      GenCorrect(p, TestAfter(f), Full(), code, s, b1 + 2, i, st1 + [Entry(l1, i)]);
      Later(code, s, x, Running(b1 + 2, i, st1 + [Entry(l1, i)]), b2, st1 + [Entry(l1, i)], Full(), m);
      AlternativeEnds(code, s, x, b2, 2 + |c2|, l1, i, st1, m);
    }
    if m.None? {
      GenOptCorrect(q, NoTest, code, s, l1, i, l, sp, st);
      OptLater(code, s, x, Running(l1, i, st1), l1 + |c2|, l, st, AsOption(q, s, i, sp));
    }
  }

  lemma OptLoopTestCorrect(p: Tree, tt: Test, code: seq<Slot>, s: seq<Char>, a: int, i: nat, l: int, sp: nat, st: seq<Entry>)
    requires WellFormed(TRep(p))
    requires sp <= i <= |s| && ToCharset(p).None? && LoopByTest(p, Full())
    requires Embedded(code, a, Gen(TRep(p), true, tt, Full()))
    ensures OptOutcome(code, s, Running(a, i, st + [Entry(l, sp)]), a + |Gen(TRep(p), true, tt, Full())|, l, st, AsOption(TRep(p), s, i, sp))
    decreases TRep(p), |s| - i, 1
  {
    hide Gen, Actual, AsOption, GetFirst, WellFormed, LoopByTest, Embedded, Reaches, Fail, Excused,
      Passes, TestHolds, TestAfter, TestSize, NoEmpty, GenTest, Emit, LoopTestCode;
    var f := NoEmpty(GetFirst(p, Full()));
    var c := Gen(p, true, TestAfter(f), Full());
    var st1 := st + [Entry(l, sp)];
    var x := Running(a, i, st1);
    var b1 := a + TestSize(f);
    OptionLoopUnfold(p, s, i, sp);
    BodyUnfold(TRep(p));
    RepGen(p, true, tt, Full());
    LoopTestParts(f, c, code, a);
    TestGoes(f, TestSize(f) + |c| + 2, code, s, a, i, st1);
    if Passes(f, s, i) {
      var e := AsOption(p, s, i, sp);
      GenOptCorrect(p, TestAfter(f), code, s, b1, i, l, sp, st);
      OptLater(code, s, x, Running(b1, i, st1), b1 + |c|, l, st, e);
      if e.Falls? {
        JmpGoes(code, s, x, b1 + |c|, -(TestSize(f) + |c|), e.pos, st + [Entry(l, e.saved)]);
        OptLoopTestCorrect(p, tt, code, s, a, e.pos, l, e.saved, st);
        OptLater(code, s, x, Running(a, e.pos, st + [Entry(l, e.saved)]), b1 + |c| + 2, l, st, AsOption(TRep(p), s, e.pos, e.saved));
      }
    }
  }

  lemma OptLoopCorrect(p: Tree, tt: Test, code: seq<Slot>, s: seq<Char>, a: int, i: nat, l: int, sp: nat, st: seq<Entry>)
    requires WellFormed(TRep(p))
    requires sp <= i <= |s| && ToCharset(p).None? && !LoopByTest(p, Full())
    requires Embedded(code, a, Gen(TRep(p), true, tt, Full()))
    ensures OptOutcome(code, s, Running(a, i, st + [Entry(l, sp)]), a + |Gen(TRep(p), true, tt, Full())|, l, st, AsOption(TRep(p), s, i, sp))
    decreases TRep(p), |s| - i, 1
  {
    hide Gen, Actual, AsOption, GetFirst, WellFormed, LoopByTest, Embedded, Reaches, Fail, Excused,
      Passes, TestHolds, TestAfter, TestSize, GenTest, Emit, LoopCode;
    var f := GetFirst(p, Full());
    var c := Gen(p, false, NoTest, Full());
    var k := 2 + |c| + 2;
    var st1 := st + [Entry(l, sp)];
    var x := Running(a, i, st1);
    var b1 := a + TestSize(f);
    LoopAdvances(p, Full(), s, i);
    OptionLoopUnfold(p, s, i, sp);
    BodyUnfold(TRep(p));
    RepGen(p, true, tt, Full());
    LoopParts(f, true, c, code, a);
    TestGoes(f, TestSize(f) + k, code, s, a, i, st1);
    if Passes(f, s, i) {
      PartialCommitGoes(code, s, x, b1, 2, i, st, Entry(l, sp));
      LoopBody(p, Full(), code, s, b1 + 2, i, l, st);
      Then(code, s, x, Running(b1 + 2, i, st + [Entry(l, i)]), Running(l, Actual(TRep(p), Full(), s, i).value, st));
    }
  }

  /** The state in which a run of the compiled pattern has to end. */
  function EndState(m: Option<nat>): State { if m.Some? then Matched(m.value) else GaveUp }

  /** What the compiled code of any well-formed tree computes. */
  lemma CompileActual(t: Tree, s: seq<Char>, i: nat)
    requires WellFormed(t)
    requires i <= |s|
    ensures Reaches(Compile(t), s, Running(0, i, []), EndState(Actual(t, Full(), s, i)))
  {
    hide Gen, Actual, WellFormed, Reaches, Excused, Emit;
    var c := Gen(t, false, NoTest, Full());
    var x := Running(0, i, []);
    var m := Actual(t, Full(), s, i);
    assert Embedded(Compile(t), 0, c + Emit(IEnd));
    Parts(Compile(t), 0, c, Emit(IEnd));
    GenCorrect(t, NoTest, Full(), Compile(t), s, 0, i, []);
    NotExcusedFromFull(s, m);
    if m.Some? { GoesAfter(Compile(t), s, x, |c|, IEnd, m.value, []); }
  }
}
