/** What the compiled code of a tree matches. It is what the tree means, but for one thing: code
    at the end of an option reuses the choice of the option, and inside a loop that is compiled to
    a plain test (lpcode.c:762) leaving an inner option through that choice leaves the loop. */
module LpegActual {
  import opened Wrappers
  import opened LpegTree
  import opened LpegAnalysis
  import opened LpegGen

  /** How code at the end of an option ends: at its own end, with the position that is saved in
      the choice of the option, or through that choice. */
  datatype Ending = Falls(pos: nat, saved: nat) | Leaves(pos: nat)

  /** The position that the code of `t` with follow set `fl` gets to, or None if it fails. */
  ghost function Actual(t: Tree, fl: Charset, s: seq<Char>, i: nat): (r: Option<nat>)
    requires i <= |s|
    ensures r.Some? ==> i <= r.value <= |s|
    ensures t.TRep? ==> r.Some?
    decreases t, |s| - i, 0
  {
    match t
    case TSeq(p, q) =>
      var m := Actual(p, FollowOf(p, q, fl), s, i);
      if m.None? then None else Actual(q, fl, s, m.value)
    case TChoice(p, q) =>
      if q.TTrue? && !ChoiceByTest(p, q, fl) then
        if Passes(GetFirst(p, Full()), s, i) then Some(AsOption(p, s, i, i).pos) else Some(i)
      else
        var m := Actual(p, if ChoiceByTest(p, q, fl) then fl else Full(), s, i);
        if m.Some? then m else Actual(q, fl, s, i)
    case TRep(p) =>
      (match Actual(p, Full(), s, i)
       case None => Some(i)
       case Some(j) => if j == i then Some(i) else Actual(t, fl, s, j))
    case TNot(p) => if Actual(p, Full(), s, i).Some? then None else Some(i)
    case TAnd(p) => if Actual(p, Full(), s, i).Some? then Some(i) else None
    case TBehind(n, p) => if n <= i && Actual(p, Full(), s, i - n).Some? then Some(i) else None
    case _ => Match(t, s, i)
  }

  /** How the code of `t` as the end of an option ends, when the choice of the option holds
      the position `saved`. */
  ghost function AsOption(t: Tree, s: seq<Char>, i: nat, saved: nat): (e: Ending)
    requires saved <= i <= |s|
    ensures saved <= e.pos <= |s|
    ensures e.Falls? ==> i <= e.pos && saved <= e.saved <= e.pos
    decreases t, |s| - i, 1
  {
    match t
    case TSeq(p, q) =>
      var m := Actual(p, FollowOf(p, q, Full()), s, i);
      if m.None? then Leaves(saved) else AsOption(q, s, m.value, saved)
    case TChoice(p, q) =>
      if q.TTrue? && !ChoiceByTest(p, q, Full()) then AsOption(p, s, i, i)
      else
        var m := Actual(p, Full(), s, i);
        if m.Some? then Falls(m.value, saved) else AsOption(q, s, i, saved)
    case TRep(p) =>
      if ToCharset(p).Some? then Falls(Actual(t, Full(), s, i).value, saved)
      else if !LoopByTest(p, Full()) then
        if Passes(GetFirst(p, Full()), s, i) then Leaves(Actual(t, Full(), s, i).value) else Falls(i, saved)
      else if !Passes(NoEmpty(GetFirst(p, Full())), s, i) then Falls(i, saved)
      else
        (match AsOption(p, s, i, saved)
         case Leaves(j) => Leaves(j)
         case Falls(j, k) => if j == i then Falls(i, k) else AsOption(t, s, j, k))
    case _ =>
      var m := Actual(t, Full(), s, i);
      if m.Some? then Falls(m.value, saved) else Leaves(saved)
  }

  // The analyses are sound for the code too.

  lemma {:induction false} ActualNoFail(t: Tree, fl: Charset, s: seq<Char>, i: nat)
    requires i <= |s| && NoFail(t)
    ensures Actual(t, fl, s, i).Some?
  {
    hide GetFirst, HeadFail, ChoiceByTest, AsOption, Passes, FollowOf;
    match t
    case TAnd(p) => ActualNoFail(p, Full(), s, i);
    case TSeq(p, q) =>
      ActualNoFail(p, FollowOf(p, q, fl), s, i);
      ActualNoFail(q, fl, s, Actual(p, FollowOf(p, q, fl), s, i).value);
    case TChoice(p, q) =>
      if NoFail(q) { ActualNoFail(q, fl, s, i); }
      else { ActualNoFail(p, if ChoiceByTest(p, q, fl) then fl else Full(), s, i); }
    case _ =>
  }

  lemma {:induction false} ActualNullable(t: Tree, fl: Charset, s: seq<Char>, i: nat)
    requires i <= |s| && Actual(t, fl, s, i) == Some(i)
    ensures Nullable(t)
  {
    hide GetFirst, HeadFail, ChoiceByTest, AsOption, Passes, FollowOf;
    match t
    case TSeq(p, q) =>
      ActualNullable(p, FollowOf(p, q, fl), s, i);
      ActualNullable(q, fl, s, i);
    case TChoice(p, q) =>
      var g := if ChoiceByTest(p, q, fl) then fl else Full();
      if Actual(p, g, s, i) == Some(i) { ActualNullable(p, g, s, i); }
      else if q.TTrue? { assert Nullable(q); }
      else { ActualNullable(q, fl, s, i); }
    case _ =>
  }

  /** Only nullable code falls through without advancing. */
  lemma {:induction false} OptionNullable(t: Tree, s: seq<Char>, i: nat, saved: nat)
    requires saved <= i <= |s|
    requires var e := AsOption(t, s, i, saved); e.Falls? && e.pos == i
    ensures Nullable(t)
  {
    hide GetFirst, HeadFail, ChoiceByTest, LoopByTest, Passes, FollowOf;
    match t
    case TSeq(p, q) =>
      ActualNullable(p, FollowOf(p, q, Full()), s, i);
      OptionNullable(q, s, i, saved);
    case TChoice(p, q) =>
      if q.TTrue? { assert Nullable(q); }
      else if Actual(p, Full(), s, i).Some? { ActualNullable(p, Full(), s, i); }
      else { OptionNullable(q, s, i, saved); }
    case TRep(_) =>
    case _ => ActualNullable(t, Full(), s, i);
  }

  lemma {:induction false} ActualFixedLen(t: Tree, len: nat, fl: Charset, s: seq<Char>, i: nat)
    requires i <= |s| && FixedLenX(t, len) >= 0
    ensures Actual(t, fl, s, i).Some? ==> Actual(t, fl, s, i).value - i == FixedLenX(t, len) - len
    decreases t, 0
  {
    hide GetFirst, HeadFail, ChoiceByTest, AsOption, Passes, FollowOf;
    match t
    case TSeq(p, q) =>
      ActualFixedLen(p, len, FollowOf(p, q, fl), s, i);
      var m := Actual(p, FollowOf(p, q, fl), s, i);
      if m.Some? { ActualFixedLen(q, FixedLenX(p, len), fl, s, m.value); }
    case TChoice(p, q) =>
      ActualFixedLen(p, len, if ChoiceByTest(p, q, fl) then fl else Full(), s, i);
      ActualFixedLen(q, len, fl, s, i);
      if q.TTrue? { OptionFixedLen(p, len, s, i, i); }
    case _ =>
  }

  /** No ending is behind the fixed length. */
  lemma {:induction false} OptionFixedLen(t: Tree, len: nat, s: seq<Char>, i: nat, saved: nat)
    requires saved <= i <= |s| && FixedLenX(t, len) >= len
    ensures AsOption(t, s, i, saved).pos - i <= FixedLenX(t, len) - len
    decreases t, 1
  {
    hide GetFirst, HeadFail, ChoiceByTest, Passes, FollowOf;
    match t
    case TSeq(p, q) =>
      FixedLenGrows(p, len);
      FixedLenGrows(q, FixedLenX(p, len));
      ActualFixedLen(p, len, FollowOf(p, q, Full()), s, i);
      var m := Actual(p, FollowOf(p, q, Full()), s, i);
      if m.Some? { OptionFixedLen(q, FixedLenX(p, len), s, m.value, saved); }
    case TChoice(p, q) =>
      OptionFixedLen(p, len, s, i, i);
      ActualFixedLen(p, len, Full(), s, i);
      OptionFixedLen(q, len, s, i, saved);
    case TRep(_) =>
    case _ => ActualFixedLen(t, len, Full(), s, i);
  }

  lemma {:induction false} FixedLenGrows(t: Tree, len: nat)
    ensures FixedLenX(t, len) == -1 || FixedLenX(t, len) >= len
  {
    match t
    case TSeq(p, q) =>
      FixedLenGrows(p, len);
      if FixedLenX(p, len) >= 0 { FixedLenGrows(q, FixedLenX(p, len)); }
    case TChoice(p, q) => FixedLenGrows(p, len);
    case _ =>
  }

  lemma {:induction false} ActualFirst(t: Tree, g: Charset, fl: Charset, s: seq<Char>, i: nat)
    requires WellFormed(t)
    requires i < |s| && s[i] !in GetFirst(t, g).cs
    requires Actual(t, fl, s, i).Some?
    ensures Actual(t, fl, s, i) == Some(i) && s[i] !in g
    decreases t, 0
  {
    hide HeadFail, ChoiceByTest, AsOption, FollowOf;
    match t
    case TSeq(p, q) =>
      if !Nullable(p) {
        ActualFirst(p, Full(), FollowOf(p, q, fl), s, i);
        assert false;
      } else {
        ActualFirst(p, GetFirst(q, g).cs, FollowOf(p, q, fl), s, i);
        ActualFirst(q, g, fl, s, i);
      }
    case TChoice(p, q) =>
      if q.TTrue? && !ChoiceByTest(p, q, fl) { OptionFirst(p, g, s, i, i); }
      else {
        var h := if ChoiceByTest(p, q, fl) then fl else Full();
        if Actual(p, h, s, i).Some? { ActualFirst(p, g, h, s, i); } else { ActualFirst(q, g, fl, s, i); }
      }
    case TRep(p) =>
      if Actual(p, Full(), s, i).Some? {
        ActualFirst(p, g, Full(), s, i);
        ActualNullable(p, Full(), s, i);
        assert false;
      }
    case TAnd(p) => if s[i] in g { ActualFirst(p, g, Full(), s, i); }
    case _ =>
  }

  /** Code that may not start with the next character does not advance. */
  lemma {:induction false} OptionFirst(t: Tree, g: Charset, s: seq<Char>, i: nat, saved: nat)
    requires WellFormed(t) && saved <= i
    requires i < |s| && s[i] !in GetFirst(t, g).cs
    ensures AsOption(t, s, i, saved).pos <= i
    decreases t, 1
  {
    hide HeadFail, ChoiceByTest, LoopByTest, FollowOf;
    match t
    case TSeq(p, q) =>
      var m := Actual(p, FollowOf(p, q, Full()), s, i);
      if m.Some? {
        if !Nullable(p) {
          ActualFirst(p, Full(), FollowOf(p, q, Full()), s, i);
          assert false;
        } else {
          ActualFirst(p, GetFirst(q, g).cs, FollowOf(p, q, Full()), s, i);
          OptionFirst(q, g, s, i, saved);
        }
      }
    case TChoice(p, q) =>
      if q.TTrue? && !ChoiceByTest(p, q, Full()) { OptionFirst(p, g, s, i, i); }
      else if Actual(p, Full(), s, i).Some? { ActualFirst(p, g, Full(), s, i); }
      else { OptionFirst(q, g, s, i, saved); }
    case TRep(p) =>
      ActualFirst(t, g, Full(), s, i);
      if ToCharset(p).None? && LoopByTest(p, Full()) { NoRound(p, g, s, i); }
    case _ =>
  }

  lemma MeetsFull(cs: Charset, c: Char)
    ensures c in cs ==> !Disjoint(cs, Full())
  {
    assert c in cs ==> c in cs * Full();
  }

  /** The test of the loop fails on a character that its body may not start with. */
  lemma NoRound(p: Tree, g: Charset, s: seq<Char>, i: nat)
    requires WellFormed(TRep(p)) && LoopByTest(p, Full())
    requires i < |s| && s[i] !in GetFirst(p, g).cs
    ensures !Passes(NoEmpty(GetFirst(p, Full())), s, i)
  {
    hide GetFirst, HeadFail, Match;
    if HeadFail(p) {
      HeadFailExact(p, s, i);
      if Match(p, s, i).Some? {
        FirstSound(p, g, s, i);
        NullableSound(p, s, i);
      }
    } else {
      MeetsFull(GetFirst(p, Full()).cs, s[i]);
    }
  }

  lemma {:induction false} ActualEmpty(t: Tree, g: Charset, fl: Charset, s: seq<Char>)
    requires !GetFirst(t, g).e
    ensures Actual(t, fl, s, |s|) == None
  {
    hide HeadFail, ChoiceByTest, AsOption, FollowOf;
    match t
    case TSeq(p, q) =>
      var m := Actual(p, FollowOf(p, q, fl), s, |s|);
      if !Nullable(p) { ActualEmpty(p, Full(), FollowOf(p, q, fl), s); }
      else if !GetFirst(p, GetFirst(q, g).cs).e { ActualEmpty(p, GetFirst(q, g).cs, FollowOf(p, q, fl), s); }
      else { ActualEmpty(q, g, fl, s); }
    case TChoice(p, q) =>
      ActualEmpty(p, g, if ChoiceByTest(p, q, fl) then fl else Full(), s);
      ActualEmpty(q, g, fl, s);
    case TAnd(p) => ActualEmpty(p, g, Full(), s);
    case _ =>
  }

  lemma {:induction false} ActualHeadFail(t: Tree, fl: Charset, s: seq<Char>, i: nat)
    requires i <= |s| && HeadFail(t)
    ensures Actual(t, fl, s, i).Some? <==> i < |s| && s[i] in GetFirst(t, Full()).cs
  {
    hide ChoiceByTest, AsOption, FollowOf;
    match t
    case TAnd(p) => ActualHeadFail(p, Full(), s, i);
    case TSeq(p, q) =>
      var m := Actual(p, FollowOf(p, q, fl), s, i);
      ActualHeadFail(p, FollowOf(p, q, fl), s, i);
      if m.Some? { ActualNoFail(q, fl, s, m.value); }
      if Nullable(p) { NoFailFirst(q); }
    case TChoice(p, q) =>
      ActualHeadFail(p, if ChoiceByTest(p, q, fl) then fl else Full(), s, i);
      ActualHeadFail(q, fl, s, i);
    case _ =>
  }

  /** A failed test on a usable first set means that the code fails. */
  lemma ActualTest(t: Tree, fl: Charset, s: seq<Char>, i: nat)
    requires WellFormed(t) && i <= |s|
    requires !Passes(GetFirst(t, Full()), s, i)
    ensures Actual(t, fl, s, i) == None
  {
    hide GetFirst, Actual;
    if i < |s| {
      if Actual(t, fl, s, i).Some? { ActualFirst(t, Full(), fl, s, i); }
    } else {
      ActualEmpty(t, Full(), fl, s);
    }
  }

  /** Code at the end of an option that may not start with the next character leaves. */
  lemma {:induction false} OptionTest(t: Tree, s: seq<Char>, i: nat, saved: nat)
    requires WellFormed(t) && saved <= i
    requires i < |s| && s[i] !in GetFirst(t, Full()).cs
    ensures AsOption(t, s, i, saved) == Leaves(saved)
  {
    hide HeadFail, ChoiceByTest, LoopByTest, FollowOf;
    assert IsByte(s[i]);
    match t
    case TSeq(p, q) =>
      var m := Actual(p, FollowOf(p, q, Full()), s, i);
      if m.Some? {
        if !Nullable(p) {
          ActualFirst(p, Full(), FollowOf(p, q, Full()), s, i);
          assert false;
        } else {
          ActualFirst(p, GetFirst(q, Full()).cs, FollowOf(p, q, Full()), s, i);
          OptionTest(q, s, i, saved);
        }
      }
    case TChoice(p, q) =>
      if Actual(p, Full(), s, i).Some? { ActualFirst(p, Full(), Full(), s, i); }
      if !q.TTrue? { OptionTest(q, s, i, saved); }
    case TAnd(_) => if Actual(t, Full(), s, i).Some? { ActualFirst(t, Full(), Full(), s, i); }
    case TNot(p) => if ToCharset(p).Some? { assert Actual(p, Full(), s, i).Some?; }
    case _ =>
  }
}
