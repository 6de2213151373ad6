/** Jumps in code arrays: chains of IJmp instructions, and a code array in which
    some instructions were replaced by what their jumps lead to behaves as before. */
module LpegJumps {
  import opened LpegTree
  import opened LpegVM
  import opened LpegCodegen

  predicate HasOffset(i: Inst) {
    match i
    case ITestAny(_) => true
    case ITestChar(_, _) => true
    case ITestSet(_, _) => true
    case IChoice(_) => true
    case IJmp(_) => true
    case ICommit(_) => true
    case IPartialCommit(_) => true
    case IBackCommit(_) => true
    case _ => false
  }

  function Offset(i: Inst): int { if HasOffset(i) then i.offset else 0 }

  predicate IsInst(code: seq<Slot>, p: int) { 0 <= p < |code| && code[p].Op? }

  predicate IsJmp(code: seq<Slot>, p: int) { IsInst(code, p) && code[p].inst.IJmp? }

  function Target(code: seq<Slot>, p: int): int
    requires IsInst(code, p)
  {
    p + Offset(code[p].inst)
  }

  ghost predicate ChainN(code: seq<Slot>, p: int, q: int, n: nat)
    decreases n
  {
    if n == 0 then p == q else IsJmp(code, p) && ChainN(code, Target(code, p), q, n - 1)
  }

  /** From `p`, IJmp instructions alone lead to `q`. */
  ghost predicate Chain(code: seq<Slot>, p: int, q: int) { exists n: nat :: ChainN(code, p, q, n) }

  lemma {:induction false} ChainNCompose(code: seq<Slot>, p: int, q: int, r: int, m: nat, n: nat)
    requires ChainN(code, p, q, m) && ChainN(code, q, r, n)
    ensures ChainN(code, p, r, m + n)
    decreases m
  {
    if m > 0 { ChainNCompose(code, Target(code, p), q, r, m - 1, n); }
  }

  lemma ChainTrans(code: seq<Slot>, p: int, q: int, r: int)
    requires Chain(code, p, q) && Chain(code, q, r)
    ensures Chain(code, p, r)
  {
    var m: nat :| ChainN(code, p, q, m);
    var n: nat :| ChainN(code, q, r, n);
    ChainNCompose(code, p, q, r, m, n);
  }

  lemma ChainSelf(code: seq<Slot>, p: int)
    ensures Chain(code, p, p)
  {
    assert ChainN(code, p, p, 0);
  }

  lemma ChainHead(code: seq<Slot>, p: int, q: int)
    requires Chain(code, p, q) && p != q
    ensures IsJmp(code, p) && Chain(code, Target(code, p), q)
  {
    var n: nat :| ChainN(code, p, q, n);
    assert ChainN(code, Target(code, p), q, n - 1);
  }

  lemma ChainCons(code: seq<Slot>, p: int, q: int)
    requires IsJmp(code, p) && Chain(code, Target(code, p), q)
    ensures Chain(code, p, q)
  {
    var n: nat :| ChainN(code, Target(code, p), q, n);
    assert ChainN(code, p, q, n + 1);
  }

  predicate FallsThrough(i: Inst) {
    !(i.IJmp? || i.ICommit? || i.IPartialCommit? || i.IBackCommit? || i.IFail? || i.IFailTwice? || i.IEnd?)
  }

  /** Instruction `b` at `q` may stand for `a` at `p`: they differ only in a label,
      which `b` resolves further along a chain of jumps. */
  ghost predicate InstRel(code: seq<Slot>, a: Inst, p: int, b: Inst, q: int) {
    && a == WithOffset(b, Offset(a))
    && (HasOffset(a) ==> Chain(code, p + Offset(a), q + Offset(b)))
    && (FallsThrough(a) ==> p == q)
  }

  function Goal(i: int, f: int, q: int): int { if q == i then f else q }

  /** `code2` has at `i` what `code1` has at `f`, where jumps from `i` lead to; every
      other instruction is the same up to resolved labels. */
  ghost predicate Refines(code1: seq<Slot>, code2: seq<Slot>, i: int, f: int) {
    && |code1| == |code2|
    && 0 <= i < |code1|
    && Chain(code1, i, f)
    && forall q {:trigger code2[q]} :: 0 <= q < |code1| && IsInst(code1, Goal(i, f, q)) ==>
         code2[q].Op? && InstRel(code1, code1[Goal(i, f, q)].inst, Goal(i, f, q), code2[q].inst, q)
  }

  ghost predicate EntryRel(code: seq<Slot>, i: int, f: int, a: Entry, b: Entry) {
    a.s == b.s && Chain(code, a.p, Goal(i, f, b.p))
  }

  ghost predicate StackRel(code: seq<Slot>, i: int, f: int, a: seq<Entry>, b: seq<Entry>) {
    |a| == |b| && forall k :: 0 <= k < |a| ==> EntryRel(code, i, f, a[k], b[k])
  }

  ghost predicate StateRel(code: seq<Slot>, i: int, f: int, x: State, y: State) {
    if x.Running? then
      y.Running? && x.s == y.s && Chain(code, x.p, Goal(i, f, y.p)) && StackRel(code, i, f, x.stack, y.stack)
    else x == y
  }

  /** A chain that leads to `q` leads to the goal of `q`. */
  lemma ChainGoal(code: seq<Slot>, i: int, f: int, p: int, q: int)
    requires Chain(code, i, f) && Chain(code, p, q)
    ensures Chain(code, p, Goal(i, f, q))
  {
    if q == i { ChainTrans(code, p, i, f); }
  }

  lemma FailRel(code: seq<Slot>, i: int, f: int, a: seq<Entry>, b: seq<Entry>)
    requires StackRel(code, i, f, a, b)
    ensures StateRel(code, i, f, Fail(a), Fail(b))
  {
    hide Chain;
    if |a| > 0 { assert EntryRel(code, i, f, a[|a| - 1], b[|b| - 1]); }
  }

  /** Related machines stay related over one instruction. */
  lemma ExecRel(code: seq<Slot>, i: int, f: int, s: seq<Char>, a: Inst, p: int, b: Inst, q: int, pos: nat, st1: seq<Entry>, st2: seq<Entry>)
    requires Chain(code, i, f)
    requires pos <= |s|
    requires InstRel(code, a, p, b, q)
    requires StackRel(code, i, f, st1, st2)
    ensures StateRel(code, i, f, Exec(a, s, p, pos, st1), Exec(b, s, q, pos, st2))
  {
    hide Chain, SpanEnd, Fail;
    if HasOffset(a) { ChainGoal(code, i, f, p + Offset(a), q + Offset(b)); }
    ChainSelf(code, p + SizeI(a));
    ChainGoal(code, i, f, p + SizeI(a), p + SizeI(a));
    FailRel(code, i, f, st1, st2);
    match a
    case IChoice(off) =>
      assert EntryRel(code, i, f, Entry(p + off, pos), Entry(q + Offset(b), pos));
    case IPartialCommit(off) =>
      if |st1| > 0 { assert EntryRel(code, i, f, st1[|st1| - 1], st2[|st2| - 1]); }
    case IBackCommit(off) =>
      if |st1| > 0 { assert EntryRel(code, i, f, st1[|st1| - 1], st2[|st2| - 1]); }
    case IFailTwice =>
      if |st1| > 0 { FailRel(code, i, f, st1[..|st1| - 1], st2[..|st2| - 1]); }
    case _ =>
  }

  /** A result computed by the first code array is computed by the second. */
  lemma {:induction false} Simulates(code1: seq<Slot>, code2: seq<Slot>, i: int, f: int, s: seq<Char>, x: State, y: State, n: nat, r: State)
    requires Refines(code1, code2, i, f)
    requires StateRel(code1, i, f, x, y)
    requires Steps(code1, s, x, n) == r && (r.Matched? || r.GaveUp?)
    ensures Reaches(code2, s, y, r)
    decreases n
  {
    hide Chain, StackRel, Exec, InstRel, Reaches, Steps;
    StepsUnfold(code1, s, x, n);
    if !x.Running? {
      StoppedStays(code1, s, x, n);
      Now(code2, s, y);
    } else {
      var x' := Step(code1, s, x);
      if x' == Stuck { StoppedStays(code1, s, x', n - 1); }
      if x.p != Goal(i, f, y.p) {
        ChainHead(code1, x.p, Goal(i, f, y.p));
        JmpStep(code1, s, x);
        Simulates(code1, code2, i, f, s, x', y, n - 1, r);
      } else {
        ExecRel(code1, i, f, s, code1[x.p].inst, x.p, code2[y.p].inst, y.p, x.s, x.stack, y.stack);
        Simulates(code1, code2, i, f, s, x', Step(code2, s, y), n - 1, r);
        StepFirst(code2, s, y, r);
      }
    }
  }

  lemma JmpStep(code: seq<Slot>, s: seq<Char>, x: State)
    requires x.Running? && IsJmp(code, x.p) && x.s <= |s|
    ensures Step(code, s, x) == Running(Target(code, x.p), x.s, x.stack)
  {
  }

  /** Every result of the first code array, from any subject and start, is a result
      of the second. */
  ghost predicate Agrees(code1: seq<Slot>, code2: seq<Slot>) {
    forall s: seq<Char>, start: nat, r: State ::
      (r.Matched? || r.GaveUp?) && Reaches(code1, s, Running(0, start, []), r) ==> Reaches(code2, s, Running(0, start, []), r)
  }

  lemma RefinesAgrees(code1: seq<Slot>, code2: seq<Slot>, i: int, f: int)
    requires Refines(code1, code2, i, f)
    ensures Agrees(code1, code2)
  {
    forall s: seq<Char>, start: nat, r: State | (r.Matched? || r.GaveUp?) && Reaches(code1, s, Running(0, start, []), r)
      ensures Reaches(code2, s, Running(0, start, []), r)
    {
      var n: nat :| Steps(code1, s, Running(0, start, []), n) == r;
      ChainSelf(code1, 0);
      ChainGoal(code1, i, f, 0, 0);
      Simulates(code1, code2, i, f, s, Running(0, start, []), Running(0, start, []), n, r);
    }
  }

  /** The instruction at `q` is followed by its operands and the next instruction. */
  ghost predicate LaidAt(code: seq<Slot>, q: int)
    requires IsInst(code, q)
  {
    var next := q + SizeI(code[q].inst);
    && next <= |code|
    && (next < |code| ==> code[next].Op?)
    && (forall k :: q < k < next ==> code[k] == Operand)
  }

  /** A code array whose labels point to instructions, whose instructions follow
      one another, and whose jumps lead to smaller ranks, so that chains end. */
  ghost predicate Linked(code: seq<Slot>, rank: seq<nat>) {
    && |rank| == |code|
    && (forall q :: IsInst(code, q) ==> LaidAt(code, q))
    && (forall q :: IsInst(code, q) ==> LinkedAt(code, rank, q))
  }

  ghost predicate LinkedAt(code: seq<Slot>, rank: seq<nat>, q: int)
    requires |rank| == |code| && IsInst(code, q)
  {
    && (HasOffset(code[q].inst) ==> IsInst(code, Target(code, q)))
    && (code[q].inst.IJmp? ==> rank[Target(code, q)] < rank[q])
  }

  /** Replacing an instruction by one of the same size. */
  lemma Replaced(code: seq<Slot>, rank: seq<nat>, i: int, inst: Inst)
    requires Linked(code, rank) && IsInst(code, i)
    requires SizeI(inst) == SizeI(code[i].inst)
    requires LinkedAt(code[i := Op(inst)], rank, i)
    ensures Linked(code[i := Op(inst)], rank)
  {
    var code2 := code[i := Op(inst)];
    forall q | IsInst(code2, q) ensures LaidAt(code2, q) && LinkedAt(code2, rank, q) {
      assert LaidAt(code, q);
      assert LinkedAt(code, rank, q);
    }
  }

  /** Replacing a jump by an instruction without operands. */
  lemma Shrunk(code: seq<Slot>, rank: seq<nat>, i: int, inst: Inst)
    requires Linked(code, rank) && IsJmp(code, i) && SizeI(inst) == 1 && !HasOffset(inst)
    ensures i + 1 < |code| && code[i + 1] == Operand
    ensures Linked(code[i := Op(inst)][i + 1 := Op(IAny)], rank)
  {
    assert LaidAt(code, i);
    var code2 := code[i := Op(inst)][i + 1 := Op(IAny)];
    forall q | IsInst(code2, q) ensures LaidAt(code2, q) && LinkedAt(code2, rank, q) {
      if q != i + 1 {
        assert LaidAt(code, q);
        assert LinkedAt(code, rank, q);
      }
    }
  }

  lemma {:induction false} ChainRank(code: seq<Slot>, rank: seq<nat>, p: int, q: int, n: nat)
    requires Linked(code, rank) && IsInst(code, p) && ChainN(code, p, q, n)
    ensures IsInst(code, q) && rank[q] <= rank[p]
    decreases n
  {
    if n > 0 {
      assert LinkedAt(code, rank, p);
      ChainRank(code, rank, Target(code, p), q, n - 1);
    }
  }

  lemma ChainEnds(code: seq<Slot>, rank: seq<nat>, p: int, q: int)
    requires Linked(code, rank) && IsInst(code, p) && Chain(code, p, q)
    ensures IsInst(code, q) && rank[q] <= rank[p]
  {
    var n: nat :| ChainN(code, p, q, n);
    ChainRank(code, rank, p, q, n);
  }

  /** Following the jumps from `i`; the ranks make it terminate. */
  method FinalTarget(code: seq<Slot>, i: int, ghost rank: seq<nat>) returns (f: int)
    requires Linked(code, rank) && IsInst(code, i)
    ensures Chain(code, i, f) && IsInst(code, f) && !code[f].inst.IJmp?
  {
    f := i;
    ChainSelf(code, i);
    while code[f].inst.IJmp?
      invariant Chain(code, i, f) && IsInst(code, f)
      decreases rank[f]
    {
      hide Chain;
      assert LinkedAt(code, rank, f);
      ghost var t := Target(code, f);
      ChainSelf(code, t);
      ChainCons(code, f, t);
      ChainTrans(code, i, f, t);
      f := f + code[f].inst.offset;
    }
  }

  function Relabelled(code: seq<Slot>, i: int, f: int): seq<Slot>
    requires IsInst(code, i)
  {
    code[i := Op(WithOffset(code[i].inst, f - i))]
  }

  lemma Relabel(code: seq<Slot>, rank: seq<nat>, i: int, f: int)
    requires Linked(code, rank) && IsInst(code, i) && HasOffset(code[i].inst)
    requires Chain(code, Target(code, i), f)
    ensures Linked(Relabelled(code, i, f), rank)
    ensures Agrees(code, Relabelled(code, i, f))
  {
    hide Chain, Agrees, Linked;
    var code2 := Relabelled(code, i, f);
    LinkedHere(code, rank, i);
    ChainEnds(code, rank, Target(code, i), f);
    Replaced(code, rank, i, WithOffset(code[i].inst, f - i));
    ChainSelf(code, i);
    forall q | 0 <= q < |code| && IsInst(code, q)
      ensures code2[q].Op? && InstRel(code, code[q].inst, q, code2[q].inst, q)
    {
      ChainSelf(code, Target(code, q));
    }
    RefinesAgrees(code, code2, i, i);
  }

  lemma LinkedHere(code: seq<Slot>, rank: seq<nat>, i: int)
    requires Linked(code, rank) && IsInst(code, i)
    ensures |rank| == |code| && LinkedAt(code, rank, i) && LaidAt(code, i)
  {
  }

  /** A jump to an instruction that jumps implicitly becomes that instruction. */
  lemma CopyFinal(code: seq<Slot>, rank: seq<nat>, i: int, f: int)
    requires Linked(code, rank) && IsJmp(code, i) && Chain(code, i, f) && IsInst(code, f)
    requires code[f].inst.IFail? || code[f].inst.IFailTwice? || code[f].inst.IEnd?
    ensures i + 1 < |code|
    ensures Linked(code[i := code[f]][i + 1 := Op(IAny)], rank)
    ensures Agrees(code, code[i := code[f]][i + 1 := Op(IAny)])
  {
    hide Chain, Agrees, Linked;
    Shrunk(code, rank, i, code[f].inst);
    var code2 := code[i := code[f]][i + 1 := Op(IAny)];
    forall q | 0 <= q < |code| && IsInst(code, Goal(i, f, q))
      ensures code2[q].Op? && InstRel(code, code[Goal(i, f, q)].inst, Goal(i, f, q), code2[q].inst, q)
    {
      ChainSelf(code, Target(code, Goal(i, f, q)));
    }
    RefinesAgrees(code, code2, i, f);
  }

  /** A jump to a commit becomes that commit, with its label resolved. */
  lemma CopyCommit(code: seq<Slot>, rank: seq<nat>, i: int, f: int, g: int)
    requires Linked(code, rank) && IsJmp(code, i) && Chain(code, i, f) && IsInst(code, f)
    requires code[f].inst.ICommit? || code[f].inst.IPartialCommit? || code[f].inst.IBackCommit?
    requires Chain(code, Target(code, f), g)
    ensures Linked(code[i := Op(WithOffset(code[f].inst, g - i))], rank)
    ensures Agrees(code, code[i := Op(WithOffset(code[f].inst, g - i))])
  {
    hide Chain, Agrees, Linked;
    var code2 := code[i := Op(WithOffset(code[f].inst, g - i))];
    LinkedHere(code, rank, f);
    ChainEnds(code, rank, Target(code, f), g);
    Replaced(code, rank, i, WithOffset(code[f].inst, g - i));
    forall q | 0 <= q < |code| && IsInst(code, Goal(i, f, q))
      ensures code2[q].Op? && InstRel(code, code[Goal(i, f, q)].inst, Goal(i, f, q), code2[q].inst, q)
    {
      ChainSelf(code, Target(code, Goal(i, f, q)));
    }
    RefinesAgrees(code, code2, i, f);
  }

  lemma AgreesTrans(code1: seq<Slot>, code2: seq<Slot>, code3: seq<Slot>)
    requires Agrees(code1, code2) && Agrees(code2, code3)
    ensures Agrees(code1, code3)
  {
    hide Reaches;
  }
}
