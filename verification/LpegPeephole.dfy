/** The peephole pass of lpcode.c and the whole compiler. */
module LpegPeephole {
  import opened Wrappers
  import opened LpegTree
  import opened LpegAnalysis
  import opened LpegVM
  import opened LpegGen
  import opened LpegLayout
  import opened LpegActual
  import opened LpegCorrect
  import opened LpegSafe
  import opened LpegOption
  import opened LpegCodegen
  import opened LpegJumps
  import opened LpegLinked

  predicate Labelled(i: Inst) { HasOffset(i) && !i.IJmp? }

  lemma AgreesSelf(code: seq<Slot>)
    ensures Agrees(code, code)
  {
    hide Reaches;
  }

  lemma LinkedNext(code: seq<Slot>, rank: seq<nat>, i: int)
    requires Linked(code, rank) && IsInst(code, i)
    ensures i + SizeI(code[i].inst) <= |code|
    ensures i + SizeI(code[i].inst) < |code| ==> IsInst(code, i + SizeI(code[i].inst))
    ensures HasOffset(code[i].inst) ==> IsInst(code, Target(code, i))
    ensures forall k :: i < k < i + SizeI(code[i].inst) ==> !IsInst(code, k)
  {
    assert LinkedAt(code, rank, i) && LaidAt(code, i);
  }

  /** The label of the instruction at `i`, if it has one, is final. */
  ghost predicate Resolved(code: seq<Slot>, i: int) {
    IsInst(code, i) && HasOffset(code[i].inst) ==> !IsJmp(code, Target(code, i))
  }

  /** What a step at `i` may change. */
  ghost predicate ChangesAt(code1: seq<Slot>, code2: seq<Slot>, i: int) {
    && |code1| == |code2|
    && IsInst(code2, i)
    && (forall q :: 0 <= q < |code1| && q != i && q != i + 1 ==> code2[q] == code1[q])
    && (forall q :: IsJmp(code2, q) ==> IsJmp(code1, q))
    && (HasOffset(code2[i].inst) && i + 1 < |code1| ==> code2[i + 1] == code1[i + 1])
  }

  method FinalLabel(code: seq<Slot>, i: int, ghost rank: seq<nat>) returns (f: int)
    requires Linked(code, rank) && IsInst(code, i) && HasOffset(code[i].inst)
    ensures Chain(code, Target(code, i), f) && IsInst(code, f) && !code[f].inst.IJmp?
  {
    hide Chain, Linked;
    LinkedNext(code, rank, i);
    f := FinalTarget(code, i + code[i].inst.offset, rank);
  }

  method ResolveLabel(c: CompileState, i: int, ghost rank: seq<nat>)
    requires Linked(c.code, rank) && IsInst(c.code, i) && Labelled(c.code[i].inst)
    modifies c
    ensures Linked(c.code, rank) && Agrees(old(c.code), c.code)
    ensures ChangesAt(old(c.code), c.code, i) && Resolved(c.code, i)
    ensures Labelled(c.code[i].inst)
  {
    hide Agrees, Chain, Linked;
    var f := FinalLabel(c.code, i, rank);
    Relabel(c.code, rank, i, f);
    c.JumpToThere(i, f);
  }

  method ReplaceJump(c: CompileState, i: int, ghost rank: seq<nat>)
    requires Linked(c.code, rank) && IsJmp(c.code, i)
    modifies c
    ensures Linked(c.code, rank) && Agrees(old(c.code), c.code)
    ensures ChangesAt(old(c.code), c.code, i)
    ensures Labelled(c.code[i].inst) || Resolved(c.code, i)
  {
    hide Agrees, Chain, Linked;
    var ft := FinalTarget(c.code, i, rank);
    var inst := c.code[ft].inst;
    if inst.IFail? || inst.IFailTwice? || inst.IEnd? {
      CopyFinal(c.code, rank, i, ft);
      c.code := c.code[i := c.code[ft]][i + 1 := Op(IAny)];
    } else if inst.ICommit? || inst.IPartialCommit? || inst.IBackCommit? {
      CopyLabelled(c, i, ft, rank);
    } else {
      ChainTail(c.code, i, ft);
      Relabel(c.code, rank, i, ft);
      c.JumpToThere(i, ft);
    }
  }

  method CopyLabelled(c: CompileState, i: int, ft: int, ghost rank: seq<nat>)
    requires Linked(c.code, rank) && IsJmp(c.code, i) && Chain(c.code, i, ft) && IsInst(c.code, ft)
    requires c.code[ft].inst.ICommit? || c.code[ft].inst.IPartialCommit? || c.code[ft].inst.IBackCommit?
    modifies c
    ensures Linked(c.code, rank) && Agrees(old(c.code), c.code)
    ensures ChangesAt(old(c.code), c.code, i) && Labelled(c.code[i].inst)
  {
    hide Agrees, Chain, Linked;
    var fft := FinalLabel(c.code, ft, rank);
    CopyCommit(c.code, rank, i, ft, fft);
    ghost var code1 := c.code[i := Op(WithOffset(c.code[ft].inst, fft - i))];
    c.code := c.code[i := c.code[ft]];
    c.JumpToThere(i, fft);
    assert c.code == code1;
  }

  lemma ChainTail(code: seq<Slot>, i: int, f: int)
    requires IsJmp(code, i) && Chain(code, i, f) && !IsJmp(code, f)
    ensures Chain(code, Target(code, i), f)
  {
    ChainHead(code, i, f);
  }

  lemma ChangeKeepsResolved(code1: seq<Slot>, code2: seq<Slot>, i: int, q: int)
    requires ChangesAt(code1, code2, i) && Resolved(code1, q) && q < i
    ensures Resolved(code2, q)
  {
  }

  /** Labels go to the final destination of the jumps they lead to, and jumps to
      instructions that jump become those instructions. */
  method Peephole(c: CompileState, ghost rank: seq<nat>)
    requires Linked(c.code, rank) && (|c.code| > 0 ==> IsInst(c.code, 0))
    modifies c
    ensures |c.code| == old(|c.code|) && Linked(c.code, rank)
    ensures Agrees(old(c.code), c.code)
    ensures forall i :: Resolved(c.code, i)
  {
    hide Agrees, Chain, Linked;
    AgreesSelf(c.code);
    var i := 0;
    while i < |c.code|
      invariant 0 <= i <= |c.code| == old(|c.code|)
      invariant i < |c.code| ==> IsInst(c.code, i)
      invariant Linked(c.code, rank)
      invariant Agrees(old(c.code), c.code)
      invariant forall q :: q < i ==> Resolved(c.code, q)
      decreases |c.code| - i
    {
      ghost var code0 := c.code;
      if c.code[i].inst.IJmp? {
        ReplaceJump(c, i, rank);
        AgreesTrans(old(c.code), code0, c.code);
      }
      ghost var code1 := c.code;
      if Labelled(c.code[i].inst) {
        ResolveLabel(c, i, rank);
        AgreesTrans(old(c.code), code1, c.code);
      }
      forall q | q < i ensures Resolved(c.code, q) {
        if c.code != code0 {
          if code1 != code0 { ChangeKeepsResolved(code0, code1, i, q); }
          if c.code != code1 { ChangeKeepsResolved(code1, c.code, i, q); }
        }
      }
      assert Resolved(c.code, i);
      LinkedNext(c.code, rank, i);
      i := i + SizeI(c.code[i].inst);
    }
  }

  /** Run from any start on any subject, `code` gets to where the code of `t` gets to. */
  ghost predicate Computes(code: seq<Slot>, t: Tree) {
    forall s: seq<Char>, i: nat :: i <= |s| ==>
      Reaches(code, s, Running(0, i, []), EndState(Actual(t, Full(), s, i)))
  }

  /** Run from any start on any subject, `code` does what `t` means. */
  ghost predicate Exact(code: seq<Slot>, t: Tree) {
    forall s: seq<Char>, i: nat :: i <= |s| ==> Reaches(code, s, Running(0, i, []), EndState(Match(t, s, i)))
  }

  lemma AgreesComputes(t: Tree, code: seq<Slot>)
    requires WellFormed(t)
    requires Agrees(Compile(t), code)
    ensures Computes(code, t)
    ensures OptionsSafe(t, Full()) ==> Exact(code, t)
  {
    hide Compile, Match, Actual, Reaches, WellFormed, OptionsSafe;
    forall s: seq<Char>, i: nat | i <= |s|
      ensures Reaches(code, s, Running(0, i, []), EndState(Actual(t, Full(), s, i)))
      ensures OptionsSafe(t, Full()) ==> Reaches(code, s, Running(0, i, []), EndState(Match(t, s, i)))
    {
      CompileActual(t, s, i);
      if OptionsSafe(t, Full()) { ActualIsMatch(t, Full(), s, i); }
    }
  }

  /** The compiler with all its passes. */
  method CompilePattern(t: Tree) returns (code: seq<Slot>)
    ensures Agrees(Compile(t), code)
    ensures WellFormed(t) ==> Computes(code, t)
    ensures WellFormed(t) && OptionsSafe(t, Full()) ==> Exact(code, t)
    ensures forall i :: Resolved(code, i)
  {
    hide Gen, Agrees, Computes, Exact, Linked, TestAt, Emit, Resolved, WellFormed, OptionsSafe;
    var c := new CompileState();
    NoTestAtNoInst(c.code);
    c.CodeGen(t, false, NOINST, Full());
    SingleSlot(IEnd);
    var _ := c.AddInstruction(IEnd);
    assert c.code == Compile(t);
    CompileLinked(t);
    Peephole(c, Ranks(Compile(t)));
    code := c.code;
    if WellFormed(t) { AgreesComputes(t, code); }
  }

  /** Compiling a pattern and matching it against a subject. */
  method MatchPattern(t: Tree, s: seq<Char>, i: nat) returns (r: Option<nat>)
    requires i <= |s|
    requires WellFormed(t)
    ensures r == Actual(t, Full(), s, i)
    ensures Clean(t, Full(), s, i) ==> r == Match(t, s, i)
    ensures OptionsSafe(t, Full()) ==> r == Match(t, s, i)
  {
    hide Match, Actual, WellFormed, OptionsSafe, Agrees, Resolved, Steps, Exact, Clean;
    var code := CompilePattern(t);
    assert Reaches(code, s, Running(0, i, []), EndState(Actual(t, Full(), s, i)));
    ghost var n: nat :| Steps(code, s, Running(0, i, []), n) == EndState(Actual(t, Full(), s, i));
    var x := Run(code, s, i, n);
    r := if x.Matched? then Some(x.s) else None;
    if OptionsSafe(t, Full()) { SafeIsClean(t, Full(), s, i); }
    if Clean(t, Full(), s, i) { CleanIsMatch(t, Full(), s, i); }
  }
}
