/** Where the compiled code does not mean what the tree means: an option that ends in a loop
    compiled to a plain test, a round of which leaves an inner option. lpcode.c:762 passes `opt`
    into the body of that loop, so leaving the inner option leaves the loop. */
module LpegOption {
  import opened Wrappers
  import opened LpegTree
  import opened LpegAnalysis
  import opened LpegVM
  import opened LpegGen
  import opened LpegActual
  import opened LpegCorrect
  import opened LpegSafe

  // Exactly which subjects go wrong, in terms of what the parts of the pattern mean.

  /** True when `t`, as the end of an option, matches by leaving that option: an inner option
      does not match, or a loop with a choice of its own ends. */
  ghost predicate Misses(t: Tree, s: seq<Char>, i: nat)
    requires i <= |s|
    decreases t, |s| - i
  {
    match t
    case TSeq(p, q) => var m := Match(p, s, i); m.Some? && Misses(q, s, m.value)
    case TChoice(p, q) =>
      if q.TTrue? && !ChoiceByTest(p, q, Full()) then Match(p, s, i).None? || Misses(p, s, i)
      else Match(p, s, i).None? && Misses(q, s, i)
    case TRep(p) =>
      if ToCharset(p).Some? then false
      else if !LoopByTest(p, Full()) then Passes(GetFirst(p, Full()), s, i)
      else var m := Match(p, s, i); m.Some? && (Misses(p, s, i) || (i < m.value && Misses(t, s, m.value)))
    case _ => false
  }

  /** True when a loop at the end of `t` misses in one round although another round follows. */
  ghost predicate ExitsEarly(t: Tree, s: seq<Char>, i: nat)
    requires i <= |s|
    decreases t, |s| - i
  {
    match t
    case TSeq(p, q) => var m := Match(p, s, i); m.Some? && ExitsEarly(q, s, m.value)
    case TChoice(p, q) =>
      if q.TTrue? && !ChoiceByTest(p, q, Full()) then ExitsEarly(p, s, i)
      else Match(p, s, i).None? && ExitsEarly(q, s, i)
    case TRep(p) =>
      var m := Match(p, s, i);
      && ToCharset(p).None? && LoopByTest(p, Full()) && m.Some?
      && (ExitsEarly(p, s, i)
          || if Misses(p, s, i) then Match(p, s, m.value).Some? else i < m.value && ExitsEarly(t, s, m.value))
    case _ => false
  }

  /** True when, on the way of a match of `t` from `i`, no loop at the end of an option that is
      reached exits early. */
  ghost predicate Clean(t: Tree, fl: Charset, s: seq<Char>, i: nat)
    requires i <= |s|
    decreases t, |s| - i, 0
  {
    match t
    case TSeq(p, q) =>
      var m := Match(p, s, i);
      Clean(p, FollowOf(p, q, fl), s, i) && (m.Some? ==> Clean(q, fl, s, m.value))
    case TChoice(p, q) =>
      if q.TTrue? && !ChoiceByTest(p, q, fl) then
        Passes(GetFirst(p, Full()), s, i) ==> PartsClean(p, s, i) && !ExitsEarly(p, s, i)
      else
        && Clean(p, if ChoiceByTest(p, q, fl) then fl else Full(), s, i)
        && (Match(p, s, i).None? ==> Clean(q, fl, s, i))
    case TRep(p) =>
      var m := Match(p, s, i);
      Clean(p, Full(), s, i) && (m.Some? && i < m.value ==> Clean(t, fl, s, m.value))
    case TNot(p) => Clean(p, Full(), s, i)
    case TAnd(p) => Clean(p, Full(), s, i)
    case TBehind(n, p) => n <= i ==> Clean(p, Full(), s, i - n)
    case _ => true
  }

  /** The same for all options in `t` but those that the code at its end reuses. */
  ghost predicate PartsClean(t: Tree, s: seq<Char>, i: nat)
    requires i <= |s|
    decreases t, |s| - i, 1
  {
    match t
    case TSeq(p, q) =>
      var m := Match(p, s, i);
      Clean(p, FollowOf(p, q, Full()), s, i) && (m.Some? ==> PartsClean(q, s, m.value))
    case TChoice(p, q) =>
      if q.TTrue? && !ChoiceByTest(p, q, Full()) then PartsClean(p, s, i)
      else Clean(p, Full(), s, i) && (Match(p, s, i).None? ==> PartsClean(q, s, i))
    case TRep(p) =>
      var m := Match(p, s, i);
      if ToCharset(p).None? && LoopByTest(p, Full()) then
        m.Some? ==> PartsClean(p, s, i) && (i < m.value ==> PartsClean(t, s, m.value))
      else Clean(t, Full(), s, i)
    case _ => Clean(t, Full(), s, i)
  }

  /** Where no loop exits early the code matches what the tree means. */
  lemma {:induction false} CleanIsMatch(t: Tree, fl: Charset, s: seq<Char>, i: nat)
    requires WellFormed(t) && i <= |s| && Clean(t, fl, s, i)
    ensures Actual(t, fl, s, i) == Match(t, s, i)
    decreases t, |s| - i, 0
  {
    hide GetFirst, HeadFail, ChoiceByTest, LoopByTest, Passes, FollowOf, FixedLenX, AsOption, CheckAux, ExitsEarly, Misses, PartsClean;
    match t
    case TSeq(p, q) =>
      CleanIsMatch(p, FollowOf(p, q, fl), s, i);
      if Match(p, s, i).Some? { CleanIsMatch(q, fl, s, Match(p, s, i).value); }
    case TChoice(p, q) =>
      if q.TTrue? && !ChoiceByTest(p, q, fl) {
        if Passes(GetFirst(p, Full()), s, i) { EndingExact(p, s, i, i); } else { TestFacts(p, s, i); }
      } else {
        CleanIsMatch(p, if ChoiceByTest(p, q, fl) then fl else Full(), s, i);
        if Match(p, s, i).None? { CleanIsMatch(q, fl, s, i); }
      }
    case TRep(p) =>
      CleanIsMatch(p, Full(), s, i);
      RepMatch(p, s, i);
      if Match(p, s, i).Some? { CleanIsMatch(t, fl, s, Match(p, s, i).value); }
    case TNot(p) => CleanIsMatch(p, Full(), s, i);
    case TAnd(p) => CleanIsMatch(p, Full(), s, i);
    case TBehind(n, p) => if n <= i { CleanIsMatch(p, Full(), s, i - n); }
    case _ =>
  }

  /** How the end of an option ends. */
  lemma {:induction false} EndingExact(t: Tree, s: seq<Char>, i: nat, saved: nat)
    requires WellFormed(t) && saved <= i <= |s| && PartsClean(t, s, i)
    ensures
      var m := Match(t, s, i);
      var e := AsOption(t, s, i, saved);
      if m.None? then e == Leaves(saved) && !ExitsEarly(t, s, i)
      else if ExitsEarly(t, s, i) then e.Leaves? && e.pos < m.value
      else e.pos == m.value && (e.Leaves? <==> Misses(t, s, i))
    decreases t, |s| - i, 2
  {
    hide GetFirst, HeadFail, ChoiceByTest, LoopByTest, Passes, FollowOf, FixedLenX, CheckAux, Actual, Clean;
    match t
    case TSeq(p, q) =>
      CleanIsMatch(p, FollowOf(p, q, Full()), s, i);
      if Match(p, s, i).Some? { EndingExact(q, s, Match(p, s, i).value, saved); }
    case TChoice(p, q) =>
      if q.TTrue? && !ChoiceByTest(p, q, Full()) {
        EndingExact(p, s, i, i);
      } else {
        CleanIsMatch(p, Full(), s, i);
        if Match(p, s, i).None? { EndingExact(q, s, i, saved); }
      }
    case TRep(p) =>
      if ToCharset(p).None? && LoopByTest(p, Full()) {
        LoopExact(p, s, i, saved);
      } else {
        RepMatch(p, s, i);
        CleanIsMatch(t, Full(), s, i);
        if ToCharset(p).None? && !Passes(GetFirst(p, Full()), s, i) { TestFacts(p, s, i); }
      }
    case _ => CleanIsMatch(t, Full(), s, i);
  }

  lemma LoopExact(p: Tree, s: seq<Char>, i: nat, saved: nat)
    requires WellFormed(TRep(p)) && ToCharset(p).None? && LoopByTest(p, Full())
    requires saved <= i <= |s| && PartsClean(TRep(p), s, i)
    ensures
      var m := Match(TRep(p), s, i);
      var e := AsOption(TRep(p), s, i, saved);
      && m.Some?
      && if ExitsEarly(TRep(p), s, i) then e.Leaves? && e.pos < m.value
         else e.pos == m.value && (e.Leaves? <==> Misses(TRep(p), s, i))
    decreases TRep(p), |s| - i, 1
  {
    LoopParts(p, s, i);
    hide Match, AsOption, Misses, ExitsEarly, PartsClean, Clean, WellFormed, GetFirst, LoopByTest, ToCharset, NoEmpty, Passes;
    var m := Match(p, s, i);
    RepMatch(p, s, i);
    RoundTest(p, s, i);
    RoundUnfold(p, s, i);
    OptionLoopUnfold(p, s, i, saved);
    if m.Some? {
      EndingExact(p, s, i, saved);
      var e := AsOption(p, s, i, saved);
      if e.Falls? { LoopExact(p, s, e.pos, e.saved); }
      else { LoopMatches(p, s, m.value); }
    }
  }

  lemma LoopMatches(p: Tree, s: seq<Char>, i: nat)
    requires WellFormed(TRep(p)) && i <= |s|
    ensures Match(TRep(p), s, i).Some?
    ensures
      if Match(p, s, i).Some? then i < Match(TRep(p), s, i).value else Match(TRep(p), s, i).value == i
  {
    RepMatch(p, s, i);
    NoFailSound(TRep(p), s, i);
  }

  lemma LoopParts(p: Tree, s: seq<Char>, i: nat)
    requires WellFormed(TRep(p)) && ToCharset(p).None? && LoopByTest(p, Full()) && i <= |s| && PartsClean(TRep(p), s, i)
    ensures WellFormed(p)
    ensures
      var m := Match(p, s, i);
      m.Some? ==> PartsClean(p, s, i) && (i < m.value ==> PartsClean(TRep(p), s, m.value))
  {
    hide GetFirst, LoopByTest, Match;
  }

  lemma RoundUnfold(p: Tree, s: seq<Char>, i: nat)
    requires i <= |s| && ToCharset(p).None? && LoopByTest(p, Full())
    ensures
      var m := Match(p, s, i);
      && (Misses(TRep(p), s, i) <==>
          m.Some? && (Misses(p, s, i) || (i < m.value && Misses(TRep(p), s, m.value))))
      && (ExitsEarly(TRep(p), s, i) <==>
          m.Some? && (ExitsEarly(p, s, i) ||
                      if Misses(p, s, i) then Match(p, s, m.value).Some?
                      else i < m.value && ExitsEarly(TRep(p), s, m.value)))
  {
    hide Match, GetFirst, LoopByTest;
  }

  /** Where nothing else goes wrong, an option that is compiled with a choice is right exactly if no
      loop at its end exits early; otherwise the code stops short. */
  lemma OptionExact(p: Tree, fl: Charset, s: seq<Char>, i: nat)
    requires WellFormed(p) && i <= |s| && PartsClean(p, s, i)
    requires !ChoiceByTest(p, TTrue, fl)
    ensures
      var t := TChoice(p, TTrue);
      && Match(t, s, i).Some? && Actual(t, fl, s, i).Some?
      && Actual(t, fl, s, i).value <= Match(t, s, i).value
      && (Actual(t, fl, s, i) == Match(t, s, i) <==> !ExitsEarly(p, s, i))
  {
    hide GetFirst, ChoiceByTest, AsOption, ExitsEarly, PartsClean, WellFormed;
    EndingExact(p, s, i, i);
    if !Passes(GetFirst(p, Full()), s, i) { TestFacts(p, s, i); }
    assert Actual(TTrue, fl, s, i) == Some(i);
  }

  /** Compiled and run, any well-formed tree gives what it means if and only if its code matches
      what it means; there is no other outcome. */
  lemma CompileExact(t: Tree, s: seq<Char>, i: nat)
    requires WellFormed(t) && i <= |s|
    ensures Reaches(Compile(t), s, Running(0, i, []), EndState(Match(t, s, i))) <==> Actual(t, Full(), s, i) == Match(t, s, i)
  {
    hide Actual, Match, WellFormed, Reaches, Compile;
    CompileActual(t, s, i);
    if Reaches(Compile(t), s, Running(0, i, []), EndState(Match(t, s, i))) {
      Deterministic(Compile(t), s, Running(0, i, []), EndState(Match(t, s, i)), EndState(Actual(t, Full(), s, i)));
    }
  }

  /** Compiled and run, an option gives what it means if and only if no loop is left early. */
  lemma CompileOptionExact(p: Tree, s: seq<Char>, i: nat)
    requires WellFormed(p) && i <= |s| && PartsClean(p, s, i)
    requires !ChoiceByTest(p, TTrue, Full())
    ensures
      var t := TChoice(p, TTrue);
      Reaches(Compile(t), s, Running(0, i, []), EndState(Match(t, s, i))) <==> !ExitsEarly(p, s, i)
  {
    hide Actual, Match, Reaches, Compile, ExitsEarly, PartsClean, ChoiceByTest;
    OptionExact(p, Full(), s, i);
    CompileExact(TChoice(p, TTrue), s, i);
  }

  /** Compiled and run, a well-formed tree gives what it means wherever no loop exits early. */
  lemma CompileClean(t: Tree, s: seq<Char>, i: nat)
    requires WellFormed(t) && i <= |s| && Clean(t, Full(), s, i)
    ensures Reaches(Compile(t), s, Running(0, i, []), EndState(Match(t, s, i)))
  {
    hide *;
    CleanIsMatch(t, Full(), s, i);
    CompileActual(t, s, i);
  }

  // Safe options are clean on every subject.

  lemma {:induction false} SafeIsClean(t: Tree, fl: Charset, s: seq<Char>, i: nat)
    requires OptionsSafe(t, fl) && i <= |s|
    ensures Clean(t, fl, s, i)
    decreases t, |s| - i, 0
  {
    hide GetFirst, HeadFail, ChoiceByTest, LoopByTest, Passes, FollowOf, CheckAux, ExitsEarly, Misses, PartsClean, OptionSafe, Match;
    match t
    case TSeq(p, q) =>
      SafeIsClean(p, FollowOf(p, q, fl), s, i);
      if Match(p, s, i).Some? { SafeIsClean(q, fl, s, Match(p, s, i).value); }
    case TChoice(p, q) =>
      if q.TTrue? && !ChoiceByTest(p, q, fl) {
        SafeEnding(p, s, i);
      } else {
        SafeIsClean(p, if ChoiceByTest(p, q, fl) then fl else Full(), s, i);
        SafeIsClean(q, fl, s, i);
      }
    case TRep(p) =>
      SafeIsClean(p, Full(), s, i);
      var m := Match(p, s, i);
      if m.Some? && i < m.value { SafeIsClean(t, fl, s, m.value); }
    case TNot(p) => SafeIsClean(p, Full(), s, i);
    case TAnd(p) => SafeIsClean(p, Full(), s, i);
    case TBehind(n, p) => if n <= i { SafeIsClean(p, Full(), s, i - n); }
    case _ =>
  }

  lemma {:induction false} SafeEnding(t: Tree, s: seq<Char>, i: nat)
    requires OptionsSafe(t, Full()) && OptionSafe(t) && i <= |s|
    ensures PartsClean(t, s, i) && !ExitsEarly(t, s, i)
    ensures Stays(t) && Match(t, s, i).Some? ==> !Misses(t, s, i)
    decreases t, |s| - i, 1
  {
    hide GetFirst, HeadFail, ChoiceByTest, LoopByTest, Passes, FollowOf, CheckAux, Clean;
    match t
    case TSeq(p, q) =>
      SafeIsClean(p, FollowOf(p, q, Full()), s, i);
      if Match(p, s, i).Some? { SafeEnding(q, s, Match(p, s, i).value); }
    case TChoice(p, q) =>
      if q.TTrue? && !ChoiceByTest(p, q, Full()) {
        SafeEnding(p, s, i);
        if NoFail(p) { NoFailSound(p, s, i); }
      } else {
        SafeIsClean(p, Full(), s, i);
        if Match(p, s, i).None? { SafeEnding(q, s, i); }
      }
    case TRep(p) =>
      if ToCharset(p).None? && LoopByTest(p, Full()) {
        StaysSafe(p);
        SafeEnding(p, s, i);
        var m := Match(p, s, i);
        if m.Some? && i < m.value { SafeEnding(t, s, m.value); }
      } else {
        SafeIsClean(t, Full(), s, i);
      }
    case _ => SafeIsClean(t, Full(), s, i);
  }

  // A pattern and a subject that go wrong.

  const A: Char := 97
  const B: Char := 98
  const C: Char := 99

  /** 'b' 'c' */
  function Inner(): Tree { TSeq(TChar(B), TChar(C)) }

  /** 'a' ('b' 'c')? */
  function Body(): Tree { TSeq(TChar(A), TChoice(Inner(), TTrue)) }

  /** (('a' ('b' 'c')?)*)? */
  function Unsafe(): Tree { TChoice(TRep(Body()), TTrue) }

  lemma InnerFacts()
    ensures !ChoiceByTest(Inner(), TTrue, Full())
  {
    assert GetFirst(Inner(), Full()) == First({B}, false);
    assert B in {B} * Full();
  }

  lemma BodyFacts()
    ensures WellFormed(Unsafe()) && ToCharset(Body()).None? && LoopByTest(Body(), Full())
    ensures !ChoiceByTest(TRep(Body()), TTrue, Full())
    ensures !Stays(Body())
  {
    InnerFacts();
  }

  /** One round on "aaa" misses the inner option. */
  lemma RoundFacts(s: seq<Char>, i: nat)
    requires s == [A, A, A] && i < 3
    ensures Match(Body(), s, i) == Some(i + 1) && Misses(Body(), s, i)
    ensures AsOption(Body(), s, i, i) == Leaves(i + 1)
  {
    InnerFacts();
    var o := TChoice(Inner(), TTrue);
    assert Match(TChar(A), s, i) == Some(i + 1);
    assert Actual(TChar(A), FollowOf(TChar(A), o, Full()), s, i) == Some(i + 1);
    assert Match(TChar(B), s, i + 1) == None;
    assert Match(Inner(), s, i + 1) == None;
    assert Match(o, s, i + 1) == Some(i + 1) && Misses(o, s, i + 1);
    assert Actual(TChar(B), FollowOf(TChar(B), TChar(C), Full()), s, i + 1) == None;
    assert AsOption(Inner(), s, i + 1, i + 1) == Leaves(i + 1);
    assert AsOption(o, s, i + 1, i) == Leaves(i + 1);
  }

  lemma LoopMatch(s: seq<Char>, i: nat)
    requires s == [A, A, A] && i <= 3
    ensures Match(TRep(Body()), s, i) == Some(3)
    decreases 3 - i
  {
    if i < 3 {
      RoundFacts(s, i);
      LoopMatch(s, i + 1);
    } else {
      assert Match(TChar(A), s, i) == None;
    }
  }

  /** On the subject "aaa" the pattern matches all three characters; the machine
      leaves the loop through the choice of the option after the first. */
  lemma OptionInLoopFails()
    ensures WellFormed(Unsafe()) && !OptionsSafe(Unsafe(), Full())
    ensures Match(Unsafe(), [A, A, A], 0) == Some(3)
    ensures Reaches(Compile(Unsafe()), [A, A, A], Running(0, 0, []), Matched(1))
  {
    hide Reaches, Compile, ChoiceByTest, LoopByTest, Body;
    var s := [A, A, A];
    BodyFacts();
    LoopMatch(s, 0);
    RoundFacts(s, 0);
    RoundTest(Body(), s, 0);
    assert AsOption(TRep(Body()), s, 0, 0) == Leaves(1);
    assert Actual(Unsafe(), Full(), s, 0) == Some(1);
    CompileActual(Unsafe(), s, 0);
  }

  lemma SeqGen(p: Tree, q: Tree, opt: bool, tt: Test, fl: Charset)
    ensures Gen(TSeq(p, q), opt, tt, fl) ==
      Gen(p, false, tt, FollowOf(p, q, fl)) +
      Gen(q, opt, if FixedLen(p) != 0 then NoTest else tt, fl)
  {
    hide GetFirst, FixedLenX, NeedFollow;
  }

  /** Unsafe options need not be reached: behind a pattern that always fails, the
      code of every well-formed tree agrees with it. */
  lemma UnsafeAfterFalse(t: Tree, s: seq<Char>, i: nat)
    requires i <= |s|
    ensures Match(TSeq(TFalse, t), s, i) == None
    ensures Reaches(Compile(TSeq(TFalse, t)), s, Running(0, i, []), GaveUp)
  {
    hide Gen;
    var code := Compile(TSeq(TFalse, t));
    SeqGen(TFalse, t, false, NoTest, Full());
    assert Gen(TFalse, false, NoTest, Full()) == [Op(IFail)] by { FalseGen(); }
    assert code[0] == Op(IFail);
    One(code, s, Running(0, i, []));
  }

  lemma FalseGen()
    ensures Gen(TFalse, false, NoTest, Full()) == [Op(IFail)]
  {
  }
}
