/** Trees whose code matches exactly what they mean. The one thing to exclude is an option that
    ends in a loop compiled to a plain test, if a round of that loop can leave an inner option. */
module LpegSafe {
  import opened Wrappers
  import opened LpegTree
  import opened LpegAnalysis
  import opened LpegVM
  import opened LpegGen
  import opened LpegActual
  import opened LpegCorrect

  /** True when the code of `t` at the end of an option leaves that option only if `t` fails. */
  predicate Stays(t: Tree) {
    match t
    case TSeq(_, q) => Stays(q)
    case TChoice(p, q) => if q.TTrue? && !ChoiceByTest(p, q, Full()) then NoFail(p) && Stays(p) else Stays(q)
    case TRep(p) => ToCharset(p).Some? || (LoopByTest(p, Full()) && Stays(p))
    case _ => true
  }

  /** True when `t` can be the end of an option: no round of a loop compiled to a plain test
      leaves an inner option. */
  predicate OptionSafe(t: Tree) {
    match t
    case TSeq(_, q) => OptionSafe(q)
    case TChoice(p, q) => if q.TTrue? && !ChoiceByTest(p, q, Full()) then OptionSafe(p) else OptionSafe(q)
    case TRep(p) => ToCharset(p).Some? || !LoopByTest(p, Full()) || Stays(p)
    case _ => true
  }

  /** Every option in `t` that is compiled with a choice, when `fl` is the follow set, is safe. */
  predicate OptionsSafe(t: Tree, fl: Charset) {
    match t
    case TRep(p) => OptionsSafe(p, Full())
    case TSeq(p, q) => OptionsSafe(p, FollowOf(p, q, fl)) && OptionsSafe(q, fl)
    case TChoice(p, q) =>
      && OptionsSafe(q, fl)
      && if ChoiceByTest(p, q, fl) then OptionsSafe(p, fl)
         else OptionsSafe(p, Full()) && (q.TTrue? ==> OptionSafe(p))
    case TNot(p) => OptionsSafe(p, Full())
    case TAnd(p) => OptionsSafe(p, Full())
    case TBehind(_, p) => OptionsSafe(p, Full())
    case _ => true
  }

  lemma {:induction false} StaysSafe(t: Tree)
    requires Stays(t)
    ensures OptionSafe(t)
  {
    hide ChoiceByTest, LoopByTest, CheckAux;
    match t
    case TSeq(_, q) => StaysSafe(q);
    case TChoice(p, q) => if q.TTrue? && !ChoiceByTest(p, q, Full()) { StaysSafe(p); } else { StaysSafe(q); }
    case _ =>
  }

  /** A loop compiled to a plain test enters a round exactly when its body matches. */
  lemma RoundTest(p: Tree, s: seq<Char>, i: nat)
    requires WellFormed(p) && i <= |s| && LoopByTest(p, Full())
    ensures Passes(NoEmpty(GetFirst(p, Full())), s, i) <==> Match(p, s, i).Some?
  {
    hide GetFirst, HeadFail, Match, WellFormed;
    if HeadFail(p) {
      HeadFailExact(p, s, i);
    } else {
      if i < |s| { MeetsFull(GetFirst(p, Full()).cs, s[i]); }
      TestSound(p, s, i);
    }
  }

  lemma RepMatch(p: Tree, s: seq<Char>, i: nat)
    requires WellFormed(TRep(p)) && i <= |s|
    ensures
      var m := Match(p, s, i);
      && (m.Some? ==> i < m.value)
      && Match(TRep(p), s, i) == if m.None? then Some(i) else Match(TRep(p), s, m.value)
  {
    if Match(p, s, i) == Some(i) { NullableSound(p, s, i); }
  }

  /** The code of a tree with safe options matches what the tree means. */
  lemma {:induction false} ActualIsMatch(t: Tree, fl: Charset, s: seq<Char>, i: nat)
    requires WellFormed(t) && OptionsSafe(t, fl) && i <= |s|
    ensures Actual(t, fl, s, i) == Match(t, s, i)
    decreases t, |s| - i, 0
  {
    hide GetFirst, HeadFail, ChoiceByTest, LoopByTest, Passes, FollowOf, FixedLenX, AsOption, OptionSafe, CheckAux;
    match t
    case TSeq(p, q) =>
      ActualIsMatch(p, FollowOf(p, q, fl), s, i);
      if Match(p, s, i).Some? { ActualIsMatch(q, fl, s, Match(p, s, i).value); }
    case TChoice(p, q) =>
      if q.TTrue? && !ChoiceByTest(p, q, fl) {
        SafeOption(p, s, i, i);
        if !Passes(GetFirst(p, Full()), s, i) { TestFacts(p, s, i); }
      } else {
        ActualIsMatch(p, if ChoiceByTest(p, q, fl) then fl else Full(), s, i);
        ActualIsMatch(q, fl, s, i);
      }
    case TRep(p) =>
      ActualIsMatch(p, Full(), s, i);
      RepMatch(p, s, i);
      if Match(p, s, i).Some? { ActualIsMatch(t, fl, s, Match(p, s, i).value); }
    case TNot(p) => ActualIsMatch(p, Full(), s, i);
    case TAnd(p) => ActualIsMatch(p, Full(), s, i);
    case TBehind(n, p) => if n <= i { ActualIsMatch(p, Full(), s, i - n); }
    case _ =>
  }

  lemma TestFacts(p: Tree, s: seq<Char>, i: nat)
    requires WellFormed(p) && i <= |s| && !Passes(GetFirst(p, Full()), s, i)
    ensures Match(p, s, i) == None
  {
    TestSound(p, s, i);
  }

  /** A safe end of an option fails or ends at the right position, and stays if it must. */
  lemma {:induction false} SafeOption(t: Tree, s: seq<Char>, i: nat, saved: nat)
    requires WellFormed(t) && OptionsSafe(t, Full()) && OptionSafe(t)
    requires saved <= i <= |s|
    ensures
      var m := Match(t, s, i);
      var e := AsOption(t, s, i, saved);
      if m.None? then e == Leaves(saved) else e.pos == m.value && (Stays(t) ==> e.Falls?)
    decreases t, |s| - i, 1
  {
    hide GetFirst, HeadFail, ChoiceByTest, LoopByTest, Passes, FollowOf, FixedLenX, CheckAux, Actual;
    match t
    case TSeq(p, q) =>
      ActualIsMatch(p, FollowOf(p, q, Full()), s, i);
      if Match(p, s, i).Some? { SafeOption(q, s, Match(p, s, i).value, saved); }
    case TChoice(p, q) =>
      if q.TTrue? && !ChoiceByTest(p, q, Full()) {
        SafeOption(p, s, i, i);
        if NoFail(p) { NoFailSound(p, s, i); }
      } else {
        ActualIsMatch(p, Full(), s, i);
        if Match(p, s, i).None? { SafeOption(q, s, i, saved); }
      }
    case TRep(p) =>
      RepMatch(p, s, i);
      ActualIsMatch(t, Full(), s, i);
      if ToCharset(p).None? {
        if !LoopByTest(p, Full()) {
          if !Passes(GetFirst(p, Full()), s, i) { TestFacts(p, s, i); }
        } else {
          RoundTest(p, s, i);
          StaysSafe(p);
          SafeOption(p, s, i, saved);
          if Match(p, s, i).Some? {
            var e := AsOption(p, s, i, saved);
            SafeOption(t, s, e.pos, e.saved);
          }
        }
      }
    case _ => ActualIsMatch(t, Full(), s, i);
  }

  /** Compiled and run, a well-formed tree with safe options gives exactly the position or the
      failure of the tree. */
  lemma CompileCorrect(t: Tree, s: seq<Char>, i: nat)
    requires WellFormed(t) && OptionsSafe(t, Full())
    requires i <= |s|
    ensures Reaches(Compile(t), s, Running(0, i, []), EndState(Match(t, s, i)))
  {
    hide *;
    ActualIsMatch(t, Full(), s, i);
    CompileActual(t, s, i);
  }
}
