/** The backtracking virtual machine of lpvm.c, without captures and calls. */
module LpegVM {
  import opened LpegTree

  datatype Inst =
    | IAny
    | IChar(c: Char)
    | ISet(cs: Charset)
    | ITestAny(offset: int)
    | ITestChar(c: Char, offset: int)
    | ITestSet(cs: Charset, offset: int)
    | ISpan(cs: Charset)
    | IBehind(n: nat)
    | IEnd
    | IChoice(offset: int)
    | IJmp(offset: int)
    | ICommit(offset: int)
    | IPartialCommit(offset: int)
    | IBackCommit(offset: int)
    | IFailTwice
    | IFail

  /** One element of a code array. The elements after an instruction that hold
      its offset or its charset buffer are Operand. */
  datatype Slot = Op(inst: Inst) | Operand

  const CHARSETINSTSIZE: nat := 9

  function SizeI(i: Inst): nat {
    match i
    case ISet(_) => CHARSETINSTSIZE
    case ISpan(_) => CHARSETINSTSIZE
    case ITestSet(_, _) => CHARSETINSTSIZE + 1
    case ITestChar(_, _) => 2
    case ITestAny(_) => 2
    case IChoice(_) => 2
    case IJmp(_) => 2
    case ICommit(_) => 2
    case IPartialCommit(_) => 2
    case IBackCommit(_) => 2
    case _ => 1
  }

  datatype Entry = Entry(p: int, s: nat)

  /** A machine about to execute the instruction at `p` with the subject at `s`,
      or one that stopped. The bottom stack entry of the C code, which leads to
      IGiveup, is the empty stack here. */
  datatype State =
    | Running(p: int, s: nat, stack: seq<Entry>)
    | Matched(s: nat)
    | GaveUp
    | Stuck

  /** The state after a failure with the given stack. */
  function Fail(stack: seq<Entry>): State {
    if |stack| == 0 then GaveUp
    else
      var top := stack[|stack| - 1];
      Running(top.p, top.s, stack[..|stack| - 1])
  }

  /** The end of the longest run of characters of `cs` from `i`. */
  function SpanEnd(cs: Charset, s: seq<Char>, i: nat): (j: nat)
    requires i <= |s|
    ensures i <= j <= |s|
    decreases |s| - i
  {
    if i < |s| && s[i] in cs then SpanEnd(cs, s, i + 1) else i
  }

  function Exec(inst: Inst, subject: seq<Char>, p: int, s: nat, stack: seq<Entry>): State
    requires s <= |subject|
  {
    match inst
    case IEnd => Matched(s)
    case IAny => if s < |subject| then Running(p + 1, s + 1, stack) else Fail(stack)
    case ITestAny(off) => if s < |subject| then Running(p + 2, s, stack) else Running(p + off, s, stack)
    case IChar(c) => if s < |subject| && subject[s] == c then Running(p + 1, s + 1, stack) else Fail(stack)
    case ITestChar(c, off) =>
      if s < |subject| && subject[s] == c then Running(p + 2, s, stack) else Running(p + off, s, stack)
    case ISet(cs) =>
      if s < |subject| && subject[s] in cs then Running(p + CHARSETINSTSIZE, s + 1, stack) else Fail(stack)
    case ITestSet(cs, off) =>
      if s < |subject| && subject[s] in cs then Running(p + 1 + CHARSETINSTSIZE, s, stack)
      else Running(p + off, s, stack)
    case IBehind(n) => if n > s then Fail(stack) else Running(p + 1, s - n, stack)
    case ISpan(cs) => Running(p + CHARSETINSTSIZE, SpanEnd(cs, subject, s), stack)
    case IJmp(off) => Running(p + off, s, stack)
    case IChoice(off) => Running(p + 2, s, stack + [Entry(p + off, s)])
    case ICommit(off) =>
      if |stack| == 0 then Stuck else Running(p + off, s, stack[..|stack| - 1])
    case IPartialCommit(off) =>
      if |stack| == 0 then Stuck
      else Running(p + off, s, stack[|stack| - 1 := Entry(stack[|stack| - 1].p, s)])
    case IBackCommit(off) =>
      if |stack| == 0 then Stuck else Running(p + off, stack[|stack| - 1].s, stack[..|stack| - 1])
    case IFailTwice => if |stack| == 0 then Stuck else Fail(stack[..|stack| - 1])
    case IFail => Fail(stack)
  }

  function Step(code: seq<Slot>, subject: seq<Char>, x: State): State {
    if x.Running? then
      if 0 <= x.p < |code| && code[x.p].Op? && x.s <= |subject|
      then Exec(code[x.p].inst, subject, x.p, x.s, x.stack)
      else Stuck
    else x
  }

  function Steps(code: seq<Slot>, subject: seq<Char>, x: State, n: nat): State
    decreases n
  {
    if n == 0 then x else Steps(code, subject, Step(code, subject, x), n - 1)
  }

  ghost predicate Reaches(code: seq<Slot>, subject: seq<Char>, x: State, y: State) {
    exists n: nat :: Steps(code, subject, x, n) == y
  }

  lemma {:induction false} StepsCompose(code: seq<Slot>, subject: seq<Char>, x: State, m: nat, n: nat)
    ensures Steps(code, subject, x, m + n) == Steps(code, subject, Steps(code, subject, x, m), n)
    decreases m
  {
    if m > 0 { StepsCompose(code, subject, Step(code, subject, x), m - 1, n); }
  }

  lemma Then(code: seq<Slot>, subject: seq<Char>, x: State, y: State, z: State)
    requires Reaches(code, subject, x, y)
    requires Reaches(code, subject, y, z)
    ensures Reaches(code, subject, x, z)
  {
    var m: nat :| Steps(code, subject, x, m) == y;
    var n: nat :| Steps(code, subject, y, n) == z;
    StepsCompose(code, subject, x, m, n);
  }

  lemma Now(code: seq<Slot>, subject: seq<Char>, x: State)
    ensures Reaches(code, subject, x, x)
  {
    assert Steps(code, subject, x, 0) == x;
  }

  lemma One(code: seq<Slot>, subject: seq<Char>, x: State)
    ensures Reaches(code, subject, x, Step(code, subject, x))
  {
    assert Steps(code, subject, x, 1) == Steps(code, subject, Step(code, subject, x), 0);
  }

  /** Executing one step first. */
  lemma StepFirst(code: seq<Slot>, subject: seq<Char>, x: State, z: State)
    requires Reaches(code, subject, Step(code, subject, x), z)
    ensures Reaches(code, subject, x, z)
  {
    One(code, subject, x);
    Then(code, subject, x, Step(code, subject, x), z);
  }

  lemma {:induction false} StoppedStays(code: seq<Slot>, subject: seq<Char>, x: State, n: nat)
    requires !x.Running?
    ensures Steps(code, subject, x, n) == x
    decreases n
  {
    if n > 0 { StoppedStays(code, subject, x, n - 1); }
  }

  /** The machine is deterministic: whatever a state leads to, it leads to at
      most one final state. */
  lemma Deterministic(code: seq<Slot>, subject: seq<Char>, x: State, y: State, z: State)
    requires Reaches(code, subject, x, y) && Reaches(code, subject, x, z)
    requires !y.Running? && !z.Running?
    ensures y == z
  {
    var m: nat :| Steps(code, subject, x, m) == y;
    var n: nat :| Steps(code, subject, x, n) == z;
    if m <= n {
      StepsCompose(code, subject, x, m, n - m);
      StoppedStays(code, subject, y, n - m);
    } else {
      StepsCompose(code, subject, x, n, m - n);
      StoppedStays(code, subject, z, m - n);
    }
  }

  lemma StepsUnfold(code: seq<Slot>, subject: seq<Char>, x: State, n: nat)
    ensures Steps(code, subject, x, n) == if n == 0 then x else Steps(code, subject, Step(code, subject, x), n - 1)
  {
  }

  /** The interpreter loop. `steps` bounds the run, since a code array that is not
      the output of the compiler need not terminate. */
  method Run(code: seq<Slot>, subject: seq<Char>, start: nat, ghost steps: nat) returns (r: State)
    requires start <= |subject|
    requires !Steps(code, subject, Running(0, start, []), steps).Running?
    ensures r == Steps(code, subject, Running(0, start, []), steps)
  {
    hide Steps;
    var p: int, s: nat, stack: seq<Entry> := 0, start, [];
    ghost var left := steps;
    while true
      invariant s <= |subject|
      invariant forall k :: 0 <= k < |stack| ==> stack[k].s <= |subject|
      invariant Steps(code, subject, Running(p, s, stack), left) == Steps(code, subject, Running(0, start, []), steps)
      decreases left
    {
      StepsUnfold(code, subject, Running(p, s, stack), left);
      if !(0 <= p < |code| && code[p].Op?) {
        StoppedStays(code, subject, Stuck, left - 1);
        return Stuck;
      }
      var failed := false;
      match code[p].inst {
        case IEnd =>
          StoppedStays(code, subject, Matched(s), left - 1);
          return Matched(s);
        case IAny =>
          if s < |subject| { p := p + 1; s := s + 1; } else { failed := true; }
        case ITestAny(off) =>
          if s < |subject| { p := p + 2; } else { p := p + off; }
        case IChar(c) =>
          if s < |subject| && subject[s] == c { p := p + 1; s := s + 1; } else { failed := true; }
        case ITestChar(c, off) =>
          if s < |subject| && subject[s] == c { p := p + 2; } else { p := p + off; }
        case ISet(cs) =>
          if s < |subject| && subject[s] in cs { p := p + CHARSETINSTSIZE; s := s + 1; } else { failed := true; }
        case ITestSet(cs, off) =>
          if s < |subject| && subject[s] in cs { p := p + 1 + CHARSETINSTSIZE; } else { p := p + off; }
        case IBehind(n) =>
          if n > s { failed := true; } else { s := s - n; p := p + 1; }
        case ISpan(cs) =>
          ghost var s0 := s;
          while s < |subject|
            invariant s0 <= s <= |subject|
            invariant SpanEnd(cs, subject, s0) == SpanEnd(cs, subject, s)
          {
            if subject[s] !in cs { break; }
            s := s + 1;
          }
          p := p + CHARSETINSTSIZE;
        case IJmp(off) => p := p + off;
        case IChoice(off) =>
          stack := stack + [Entry(p + off, s)];
          p := p + 2;
        case ICommit(off) =>
          if |stack| == 0 { StoppedStays(code, subject, Stuck, left - 1); return Stuck; }
          stack := stack[..|stack| - 1];
          p := p + off;
        case IPartialCommit(off) =>
          if |stack| == 0 { StoppedStays(code, subject, Stuck, left - 1); return Stuck; }
          stack := stack[|stack| - 1 := Entry(stack[|stack| - 1].p, s)];
          p := p + off;
        case IBackCommit(off) =>
          if |stack| == 0 { StoppedStays(code, subject, Stuck, left - 1); return Stuck; }
          s := stack[|stack| - 1].s;
          stack := stack[..|stack| - 1];
          p := p + off;
        case IFailTwice =>
          if |stack| == 0 { StoppedStays(code, subject, Stuck, left - 1); return Stuck; }
          stack := stack[..|stack| - 1];
          failed := true;
        case IFail => failed := true;
      }
      if failed {
        if |stack| == 0 {
          StoppedStays(code, subject, GaveUp, left - 1);
          return GaveUp;
        }
        p, s := stack[|stack| - 1].p, stack[|stack| - 1].s;
        stack := stack[..|stack| - 1];
      }
      left := left - 1;
    }
  }
}
