/** A Lua program and the collector in any interleaving: the program cannot tell that there is
    a collector. */
module Mutator {
  import opened LuaHeap
  import opened Collector

  /** What the program can see: the heap and where it starts from. */
  datatype State = State(heap: Heap, main: Obj, running: Obj, registry: Value, mt: seq<Value>)

  /** How the program gets at a value: from a root, along slots and metatables. */
  datatype Access =
    | Main
    | Running
    | Registry
    | TypeMeta(i: nat)
    | Slot(of: Access, i: nat)
    | Meta(of: Access)

  /** What happens next: the program writes, creates an object or switches threads, or the
      collector does a step or a full collection. */
  datatype Action =
    | Write(target: Access, i: nat, source: Access)
    | WriteMeta(target: Access, source: Access)
    | WriteStack(target: Access, sources: seq<Access>)
    | WriteTypeMeta(i: nat, source: Access)
    | Create(o: Obj, kind: Kind)
    | Switch(target: Access)
    | Collect
    | CollectFully

  function Resolve(s: State, a: Access): Value {
    match a
    case Main => Ref(s.main)
    case Running => Ref(s.running)
    case Registry => s.registry
    case TypeMeta(i) => if i < |s.mt| then s.mt[i] else Nil
    case Slot(of, i) =>
      var v := Resolve(s, of);
      if v.Ref? && v.obj in s.heap && i < |s.heap[v.obj].slots| then s.heap[v.obj].slots[i] else Nil
    case Meta(of) =>
      var v := Resolve(s, of);
      if v.Ref? && v.obj in s.heap then s.heap[v.obj].meta else Nil
  }

  function ResolveAll(s: State, sources: seq<Access>): (r: seq<Value>)
    ensures |r| == |sources| && forall i :: 0 <= i < |r| ==> r[i] == Resolve(s, sources[i])
  {
    seq(|sources|, i requires 0 <= i < |sources| => Resolve(s, sources[i]))
  }

  predicate IsA(s: State, v: Value, kinds: set<Kind>) { v.Ref? && v.obj in s.heap && s.heap[v.obj].kind in kinds }

  function Put(slots: seq<Value>, i: nat, v: Value): seq<Value>
    requires i <= |slots|
  {
    if i < |slots| then slots[i := v] else slots + [v]
  }

  /** What an action does to a program without a collector. `used` are the addresses ever given out. */
  function Step(s: State, used: set<Obj>, a: Action): State {
    match a
    case Write(target, i, source) =>
      var t, v := Resolve(s, target), Resolve(s, source);
      if IsA(s, t, {Table}) && i <= |s.heap[t.obj].slots| then
        s.(heap := s.heap[t.obj := s.heap[t.obj].(slots := Put(s.heap[t.obj].slots, i, v))])
      else if IsA(s, t, {CClosure, Userdata}) && i < |s.heap[t.obj].slots| then
        s.(heap := s.heap[t.obj := s.heap[t.obj].(slots := Put(s.heap[t.obj].slots, i, v))])
      else s
    case WriteMeta(target, source) =>
      var t, m := Resolve(s, target), Resolve(s, source);
      if IsA(s, t, {Table, Userdata}) && (m == Nil || IsA(s, m, {Table})) then
        s.(heap := s.heap[t.obj := s.heap[t.obj].(meta := m)])
      else s
    case WriteStack(target, sources) =>
      var t := Resolve(s, target);
      if IsA(s, t, {Thread}) then
        s.(heap := s.heap[t.obj := s.heap[t.obj].(slots := ResolveAll(s, sources))])
      else s
    case WriteTypeMeta(i, source) => if i < |s.mt| then s.(mt := s.mt[i := Resolve(s, source)]) else s
    case Create(o, kind) =>
      if o !in used && s.running in s.heap then
        var stack := s.heap[s.running];
        s.(heap := s.heap[o := Blank(kind)][s.running := stack.(slots := stack.slots + [Ref(o)])])
      else s
    case Switch(target) =>
      var t := Resolve(s, target);
      if IsA(s, t, {Thread}) then s.(running := t.obj) else s
    case Collect => s
    case CollectFully => s
  }

  function UsedAfter(used: set<Obj>, a: Action): set<Obj> { if a.Create? then used + {a.o} else used }

  function RunAll(s: State, used: set<Obj>, schedule: seq<Action>): State
    decreases |schedule|
  {
    if schedule == [] then s
    else
      var n := |schedule| - 1;
      Step(RunAll(s, used, schedule[..n]), UsedAll(used, schedule[..n]), schedule[n])
  }

  function UsedAll(used: set<Obj>, schedule: seq<Action>): set<Obj>
    decreases |schedule|
  {
    if schedule == [] then used else UsedAfter(UsedAll(used, schedule[..|schedule| - 1]), schedule[|schedule| - 1])
  }

  function View(g: Global): State
    reads g
  {
    State(g.heap, g.mainthread, g.running, g.registry, g.mt)
  }

  ghost function RootsOf(s: State): set<Obj> {
    {s.main, s.running} + (if s.registry.Ref? then {s.registry.obj} else {}) + (set v | v in s.mt && v.Ref? :: v.obj)
  }

  /** `s` is `ideal` without some objects. */
  ghost predicate Part(s: State, ideal: State) {
    && s.main == ideal.main && s.running == ideal.running && s.registry == ideal.registry && s.mt == ideal.mt
    && forall o :: o in s.heap ==> o in ideal.heap && s.heap[o] == ideal.heap[o]
  }

  /** Nothing that can be reached is missing. */
  ghost predicate Whole(s: State) { forall x :: Reachable(s.heap, RootsOf(s), x) ==> x in s.heap }

  lemma ValidIsWhole(g: Global)
    requires g.Valid()
    ensures Whole(View(g)) && RootsOf(View(g)) == g.Roots()
  {
    hide Reachable;
    assert RootsOf(View(g)) == g.Roots();
    forall x | Reachable(g.heap, g.Roots(), x) ensures x in g.heap { g.NothingReachableIsLost(x); }
  }

  /** What the program gets at can be reached, and is the same with and without the missing objects. */
  lemma {:induction false} ResolveSame(s: State, ideal: State, a: Access)
    requires Part(s, ideal) && Whole(s)
    ensures Resolve(s, a) == Resolve(ideal, a)
    ensures Resolve(s, a).Ref? ==> Resolve(s, a).obj in s.heap && Reachable(s.heap, RootsOf(s), Resolve(s, a).obj)
  {
    hide Reachable;
    var v := Resolve(s, a);
    match a
    case Slot(of, i) => ResolveSame(s, ideal, of); if v.Ref? { FromHere(s, Resolve(s, of).obj, v); }
    case Meta(of) => ResolveSame(s, ideal, of); if v.Ref? { FromHere(s, Resolve(s, of).obj, v); }
    case _ => if v.Ref? { RootsReachable(s.heap, RootsOf(s), v.obj); }
  }

  lemma FromHere(s: State, o: Obj, v: Value)
    requires Whole(s) && o in s.heap && Reachable(s.heap, RootsOf(s), o)
    requires v.Ref? && (v == s.heap[o].meta || v in s.heap[o].slots)
    ensures Reachable(s.heap, RootsOf(s), v.obj)
  {
    ReachStep(s.heap, RootsOf(s), o, v.obj);
  }

  /** What can be reached in the ideal heap is what can be reached in the other, and there it is. */
  lemma SameForProgram(s: State, ideal: State, x: Obj)
    requires Part(s, ideal) && Whole(s)
    ensures Reachable(ideal.heap, RootsOf(ideal), x) <==> Reachable(s.heap, RootsOf(s), x)
    ensures Reachable(ideal.heap, RootsOf(ideal), x) ==> x in s.heap && x in ideal.heap && s.heap[x] == ideal.heap[x]
  {
    hide Points;
    var roots := RootsOf(s);
    assert RootsOf(ideal) == roots;
    if Reachable(s.heap, roots, x) {
      var p :| IsPath(s.heap, roots, p) && p[|p| - 1] == x;
      PathInLarger(ideal.heap, s.heap, roots, p);
      assert IsPath(ideal.heap, roots, p);
    }
    if Reachable(ideal.heap, roots, x) {
      var r := ReachableSet(s.heap, roots);
      forall o, y | o in r && o in ideal.heap && Points(ideal.heap[o], y) ensures y in r {
        ReachStep(s.heap, roots, o, y);
      }
      forall y | y in roots ensures y in r { RootsReachable(s.heap, roots, y); }
      ReachableIsLeast(ideal.heap, roots, r, x);
    }
  }

  // What the actions of the program come to.

  /** Whether a write goes through: a table may grow by one slot, the others not. */
  predicate CanWrite(s: State, target: Access, i: nat) {
    var t := Resolve(s, target);
    || (IsA(s, t, {Table}) && i <= |s.heap[t.obj].slots|)
    || (IsA(s, t, {CClosure, Userdata}) && i < |s.heap[t.obj].slots|)
  }

  ghost predicate OnlyAt(s: State, s': State, t: Obj) {
    && s'.main == s.main && s'.running == s.running && s'.registry == s.registry && s'.mt == s.mt
    && s'.heap.Keys == s.heap.Keys && t in s.heap && s'.heap[t].kind == s.heap[t].kind
    && forall o :: o in s.heap && o != t ==> s'.heap[o] == s.heap[o]
  }

  /** What is written is what is read at the same place, unless the write has moved the place
      itself, and everything else stays. */
  lemma WrittenIsRead(s: State, used: set<Obj>, target: Access, i: nat, source: Access)
    ensures
      var s' := Step(s, used, Write(target, i, source));
      if !CanWrite(s, target, i) then s' == s
      else
        var t := Resolve(s, target).obj;
        && OnlyAt(s, s', t) && s'.heap[t].meta == s.heap[t].meta
        && (Resolve(s', target) == Ref(t) ==> Resolve(s', Slot(target, i)) == Resolve(s, source))
        && (forall j :: 0 <= j < |s.heap[t].slots| && j != i ==> j < |s'.heap[t].slots| && s'.heap[t].slots[j] == s.heap[t].slots[j])
  {
  }

  lemma MetaIsRead(s: State, used: set<Obj>, target: Access, source: Access)
    ensures
      var s' := Step(s, used, WriteMeta(target, source));
      var t, m := Resolve(s, target), Resolve(s, source);
      if !IsA(s, t, {Table, Userdata}) || !(m == Nil || IsA(s, m, {Table})) then s' == s
      else
        && OnlyAt(s, s', t.obj) && s'.heap[t.obj].slots == s.heap[t.obj].slots
        && (Resolve(s', target) == t ==> Resolve(s', Meta(target)) == m)
  {
  }

  lemma StackIsRead(s: State, used: set<Obj>, target: Access, sources: seq<Access>, i: nat)
    requires i < |sources|
    ensures
      var s' := Step(s, used, WriteStack(target, sources));
      var t := Resolve(s, target);
      if !IsA(s, t, {Thread}) then s' == s
      else
        && OnlyAt(s, s', t.obj) && s'.heap[t.obj].meta == s.heap[t.obj].meta
        && |s'.heap[t.obj].slots| == |sources|
        && (Resolve(s', target) == t ==> Resolve(s', Slot(target, i)) == Resolve(s, sources[i]))
  {
  }

  /** A new object is on top of the stack of the running thread, blank, and nothing else changes. */
  lemma CreatedIsOnTop(s: State, used: set<Obj>, o: Obj, kind: Kind)
    requires o !in used && s.running in s.heap && s.heap.Keys <= used
    ensures
      var s' := Step(s, used, Create(o, kind));
      var top := |s.heap[s.running].slots|;
      && s'.heap.Keys == s.heap.Keys + {o} && s'.heap[o] == Blank(kind) && s'.running == s.running
      && Resolve(s', Slot(Running, top)) == Ref(o)
      && (forall j :: 0 <= j < top ==> Resolve(s', Slot(Running, j)) == Resolve(s, Slot(Running, j)))
      && (forall x :: x in s.heap && x != s.running ==> s'.heap[x] == s.heap[x])
  {
  }

  lemma SwitchedRuns(s: State, used: set<Obj>, target: Access)
    ensures
      var s' := Step(s, used, Switch(target));
      s'.heap == s.heap && s'.mt == s.mt &&
      Resolve(s', Running) == if IsA(s, Resolve(s, target), {Thread}) then Resolve(s, target) else Resolve(s, Running)
  {
  }

  lemma TypeMetaIsRead(s: State, used: set<Obj>, i: nat, source: Access)
    ensures
      var s' := Step(s, used, WriteTypeMeta(i, source));
      && s'.heap == s.heap && s'.running == s.running && |s'.mt| == |s.mt|
      && (i < |s.mt| ==> Resolve(s', TypeMeta(i)) == Resolve(s, source))
      && (forall j: nat :: j != i ==> Resolve(s', TypeMeta(j)) == Resolve(s, TypeMeta(j)))
  {
  }

  /** Only what the program without a collector can reach is left. */
  ghost predicate NoGarbage(s: State, ideal: State) {
    forall x :: x in s.heap ==> Reachable(ideal.heap, RootsOf(ideal), x)
  }

  /** Any interleaving of the program with steps of the collector: the program gets at the same
      values as one without a collector, and what it can reach is there with the same contents. A full
      collection at the end leaves nothing else. */
  method Run(g: Global, schedule: seq<Action>)
    requires g.Valid()
    modifies g
    ensures g.Valid()
    ensures
      var ideal := RunAll(old(View(g)), old(g.heap).Keys, schedule);
      && Part(View(g), ideal)
      && (forall a :: Resolve(View(g), a) == Resolve(ideal, a))
      && (forall x :: Reachable(ideal.heap, RootsOf(ideal), x) ==>
            x in g.heap && x in ideal.heap && g.heap[x] == ideal.heap[x])
      && (schedule != [] && schedule[|schedule| - 1] == CollectFully ==> NoGarbage(View(g), ideal))
  {
    hide Resolve, Reachable, NoGarbage;
    var used := g.heap.Keys;
    ghost var start := View(g);
    for n := 0 to |schedule|
      invariant g.Valid() && used == UsedAll(start.heap.Keys, schedule[..n]) && g.heap.Keys <= used
      invariant Part(View(g), RunAll(start, start.heap.Keys, schedule[..n]))
      invariant n > 0 && schedule[n - 1] == CollectFully ==> NoGarbage(View(g), RunAll(start, start.heap.Keys, schedule[..n]))
    {
      assert schedule[..n + 1][..n] == schedule[..n];
      Act(g, used, schedule[n], RunAll(start, start.heap.Keys, schedule[..n]));
      used := UsedAfter(used, schedule[n]);
    }
    assert schedule[..|schedule|] == schedule;
    ghost var ideal := RunAll(start, start.heap.Keys, schedule);
    ValidIsWhole(g);
    forall a ensures Resolve(View(g), a) == Resolve(ideal, a) { ResolveSame(View(g), ideal, a); }
    forall x | Reachable(ideal.heap, RootsOf(ideal), x)
      ensures x in g.heap && x in ideal.heap && g.heap[x] == ideal.heap[x]
    {
      SameForProgram(View(g), ideal, x);
    }
  }

  method Act(g: Global, used: set<Obj>, a: Action, ghost ideal: State)
    requires g.Valid() && Part(View(g), ideal) && g.heap.Keys <= used
    modifies g
    ensures g.Valid() && Part(View(g), Step(ideal, used, a)) && g.heap.Keys <= UsedAfter(used, a)
    ensures a == CollectFully ==> NoGarbage(View(g), Step(ideal, used, a))
  {
    hide NoGarbage, Part, Reachable, Resolve, Put, ResolveAll, IsA;
    hide g.Valid;
    match a {
      case Write(target, i, source) => ActWrite(g, used, target, i, source, ideal);
      case WriteMeta(target, source) => ActMeta(g, used, target, source, ideal);
      case WriteStack(target, sources) => ActStack(g, used, target, sources, ideal);
      case WriteTypeMeta(i, source) => ActTypeMeta(g, used, i, source, ideal);
      case Create(o, kind) => ActCreate(g, used, o, kind, ideal);
      case Switch(target) => ActSwitch(g, used, target, ideal);
      case Collect => ActCollect(g, used, false, ideal);
      case CollectFully => ActCollect(g, used, true, ideal);
    }
  }

  lemma PartUpdate(s: State, ideal: State, o: Obj, ob: Object)
    requires Part(s, ideal)
    ensures Part(s.(heap := s.heap[o := ob]), ideal.(heap := ideal.heap[o := ob]))
  {
  }

  lemma StepWrite(s: State, ideal: State, used: set<Obj>, target: Access, i: nat, source: Access)
    requires Part(s, ideal) && Resolve(s, target) == Resolve(ideal, target) && Resolve(s, source) == Resolve(ideal, source)
    requires Resolve(s, target) == Nil || Resolve(s, target).obj in s.heap
    ensures
      var t, v := Resolve(s, target), Resolve(s, source);
      Step(ideal, used, Write(target, i, source)) ==
      if t.Ref? && (var ob := s.heap[t.obj];
                    (ob.kind == Table && i <= |ob.slots|) || (ob.kind in {CClosure, Userdata} && i < |ob.slots|)) then
        ideal.(heap := ideal.heap[t.obj := s.heap[t.obj].(slots := Put(s.heap[t.obj].slots, i, v))])
      else ideal
  {
    hide Resolve, Put;
    var t := Resolve(s, target);
    assert t.Ref? ==> t.obj in ideal.heap && ideal.heap[t.obj] == s.heap[t.obj];
  }

  method ActWrite(g: Global, used: set<Obj>, target: Access, i: nat, source: Access, ghost ideal: State)
    requires g.Valid() && Part(View(g), ideal) && g.heap.Keys <= used
    modifies g
    ensures g.Valid() && Part(View(g), Step(ideal, used, Write(target, i, source))) && g.heap.Keys <= used
  {
    ValidIsWhole(g);
    var s := View(g);
    ResolveSame(s, ideal, target);
    ResolveSame(s, ideal, source);
    var t, v := Resolve(s, target), Resolve(s, source);
    StepWrite(s, ideal, used, target, i, source);
    hide Resolve, Reachable, Whole, Put, Step, RootsOf;
    hide g.Valid, g.Roots;
    if t.Ref? && g.heap[t.obj].kind == Table && i <= |g.heap[t.obj].slots| {
      PartUpdate(s, ideal, t.obj, s.heap[t.obj].(slots := Put(s.heap[t.obj].slots, i, v)));
      g.SetTableSlot(t.obj, i, v);
    } else if t.Ref? && g.heap[t.obj].kind in {CClosure, Userdata} && i < |g.heap[t.obj].slots| {
      PartUpdate(s, ideal, t.obj, s.heap[t.obj].(slots := Put(s.heap[t.obj].slots, i, v)));
      g.SetOwnedSlot(t.obj, i, v);
    }
  }

  lemma StepMeta(s: State, ideal: State, used: set<Obj>, target: Access, source: Access)
    requires Part(s, ideal) && Resolve(s, target) == Resolve(ideal, target) && Resolve(s, source) == Resolve(ideal, source)
    requires forall a :: a == target || a == source ==> Resolve(s, a) == Nil || Resolve(s, a).obj in s.heap
    ensures
      var t, m := Resolve(s, target), Resolve(s, source);
      Step(ideal, used, WriteMeta(target, source)) ==
      if IsA(s, t, {Table, Userdata}) && (m == Nil || IsA(s, m, {Table})) then
        ideal.(heap := ideal.heap[t.obj := s.heap[t.obj].(meta := m)])
      else ideal
  {
    hide Resolve;
    var t, m := Resolve(s, target), Resolve(s, source);
    assert t.Ref? ==> t.obj in ideal.heap && ideal.heap[t.obj] == s.heap[t.obj];
    assert m.Ref? ==> m.obj in ideal.heap && ideal.heap[m.obj] == s.heap[m.obj];
  }

  method ActMeta(g: Global, used: set<Obj>, target: Access, source: Access, ghost ideal: State)
    requires g.Valid() && Part(View(g), ideal) && g.heap.Keys <= used
    modifies g
    ensures g.Valid() && Part(View(g), Step(ideal, used, WriteMeta(target, source))) && g.heap.Keys <= used
  {
    ValidIsWhole(g);
    var s := View(g);
    ResolveSame(s, ideal, target);
    ResolveSame(s, ideal, source);
    var t, m := Resolve(s, target), Resolve(s, source);
    var fine := IsA(s, t, {Table, Userdata}) && (m == Nil || IsA(s, m, {Table}));
    StepMeta(s, ideal, used, target, source);
    hide Resolve, Reachable, Whole, Step, RootsOf;
    hide g.Valid, g.Roots;
    if fine {
      PartUpdate(s, ideal, t.obj, s.heap[t.obj].(meta := m));
      g.SetMetatable(t.obj, m);
    }
  }

  method ActStack(g: Global, used: set<Obj>, target: Access, sources: seq<Access>, ghost ideal: State)
    requires g.Valid() && Part(View(g), ideal) && g.heap.Keys <= used
    modifies g
    ensures g.Valid() && Part(View(g), Step(ideal, used, WriteStack(target, sources))) && g.heap.Keys <= used
  {
    ValidIsWhole(g);
    var s := View(g);
    ResolveSame(s, ideal, target);
    forall k | 0 <= k < |sources|
      ensures
        var v := Resolve(s, sources[k]);
        v == Resolve(ideal, sources[k]) && (v.Ref? ==> Reachable(s.heap, RootsOf(s), v.obj))
    {
      ResolveSame(s, ideal, sources[k]);
    }
    var slots := ResolveAll(s, sources);
    assert slots == ResolveAll(ideal, sources);
    var t := Resolve(s, target);
    assert t.Ref? ==> t.obj in ideal.heap && ideal.heap[t.obj] == s.heap[t.obj];
    hide Resolve, Reachable, Whole, ResolveAll;
    hide g.Valid, g.Roots;
    if IsA(s, t, {Thread}) {
      PartUpdate(s, ideal, t.obj, s.heap[t.obj].(slots := slots));
      g.SetStack(t.obj, slots);
    }
  }

  method ActTypeMeta(g: Global, used: set<Obj>, i: nat, source: Access, ghost ideal: State)
    requires g.Valid() && Part(View(g), ideal) && g.heap.Keys <= used
    modifies g
    ensures g.Valid() && Part(View(g), Step(ideal, used, WriteTypeMeta(i, source))) && g.heap.Keys <= used
  {
    ValidIsWhole(g);
    var s := View(g);
    ResolveSame(s, ideal, source);
    hide Resolve, Reachable, Whole;
    hide g.Valid, g.Roots;
    if i < |g.mt| { g.SetTypeMetatable(i, Resolve(s, source)); }
  }

  method ActCreate(g: Global, used: set<Obj>, o: Obj, kind: Kind, ghost ideal: State)
    requires g.Valid() && Part(View(g), ideal) && g.heap.Keys <= used
    modifies g
    ensures g.Valid() && Part(View(g), Step(ideal, used, Create(o, kind))) && g.heap.Keys <= used + {o}
  {
    ValidIsWhole(g);
    var s := View(g);
    ResolveSame(s, ideal, Running);
    hide Reachable, Whole, Resolve;
    hide g.Valid, g.Roots;
    if o !in used {
      var stack := s.heap[s.running];
      assert ideal.heap[s.running] == stack;
      PartUpdate(s, ideal, o, Blank(kind));
      PartUpdate(s.(heap := s.heap[o := Blank(kind)]), ideal.(heap := ideal.heap[o := Blank(kind)]),
        s.running, stack.(slots := stack.slots + [Ref(o)]));
      g.NewObject(o, kind);
    }
  }

  lemma StepSwitch(s: State, ideal: State, used: set<Obj>, target: Access)
    requires Part(s, ideal) && Resolve(s, target) == Resolve(ideal, target)
    requires Resolve(s, target) == Nil || Resolve(s, target).obj in s.heap
    ensures
      var t := Resolve(s, target);
      Part(if IsA(s, t, {Thread}) then s.(running := t.obj) else s, Step(ideal, used, Switch(target)))
  {
    hide Resolve;
    var t := Resolve(s, target);
    assert t.Ref? ==> t.obj in ideal.heap && ideal.heap[t.obj] == s.heap[t.obj];
  }

  method ActSwitch(g: Global, used: set<Obj>, target: Access, ghost ideal: State)
    requires g.Valid() && Part(View(g), ideal) && g.heap.Keys <= used
    modifies g
    ensures g.Valid() && Part(View(g), Step(ideal, used, Switch(target))) && g.heap.Keys <= used
  {
    ValidIsWhole(g);
    var s := View(g);
    ResolveSame(s, ideal, target);
    StepSwitch(s, ideal, used, target);
    var t := Resolve(s, target);
    hide Resolve, Reachable, Whole, Step, Part, RootsOf;
    hide g.Valid, g.Roots;
    if IsA(s, t, {Thread}) { g.SetRunning(t.obj); }
  }

  method ActCollect(g: Global, used: set<Obj>, fully: bool, ghost ideal: State)
    requires g.Valid() && Part(View(g), ideal) && g.heap.Keys <= used
    modifies g
    ensures g.Valid() && Part(View(g), ideal) && g.heap.Keys <= used
    ensures fully ==> NoGarbage(View(g), ideal)
  {
    if fully {
      ValidIsWhole(g);
      ghost var s := View(g);
      g.FullGC();
      ghost var s' := View(g);
      assert RootsOf(s') == RootsOf(s);
      forall x | x in g.heap ensures Reachable(ideal.heap, RootsOf(ideal), x) { SameForProgram(s, ideal, x); }
    } else {
      g.SingleStep();
    }
  }
}
