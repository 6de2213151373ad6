/** The incremental collector: marking interleaved with stores of the program, an atomic
    phase, and a sweep that frees what stayed white. */
module Collector {
  import opened Wrappers
  import opened LuaHeap

  datatype Phase = Pause | Propagate | Atomic | InsideAtomic | SwpAllgc | SwpFinobj | SwpTobefnz | SwpEnd | CallFin

  ghost predicate NoDuplicates(s: seq<Obj>) { forall i, j :: 0 <= i < j < |s| ==> s[i] != s[j] }

  /** Colours a kind can have: strings and userdata are black at once, threads never. */
  ghost predicate KindColors(heap: Heap, marks: Marks, white: bool) {
    forall o :: o in marks && o in heap ==>
      && marks[o] != White(!white)
      && (marks[o] == Gray ==> heap[o].kind in {Table, CClosure, Thread})
      && (marks[o] == Black ==> heap[o].kind != Thread)
  }

  /** The objects waiting to be traversed, now or later. */
  ghost predicate Waiting(marks: Marks, gray: seq<Obj>, later: seq<Obj>) {
    && (forall o :: o in gray || o in later ==> o in marks && marks[o] == Gray)
    && NoDuplicates(gray) && NoDuplicates(later)
    && (forall o :: o in gray ==> o !in later)
  }

  /** A thread all of whose references are marked. */
  ghost predicate Settled(heap: Heap, marks: Marks, o: Obj) {
    o in heap && heap[o].kind == Thread && forall x :: Points(heap[o], x) ==> !IsWhite(marks, x)
  }

  /** Every gray object will be visited, except the one being traversed and, inside the atomic
      phase, the threads that need no second visit. */
  ghost predicate GrayListed(heap: Heap, marks: Marks, gray: seq<Obj>, later: seq<Obj>, settling: bool, from: Option<Obj>) {
    forall o :: o in marks && marks[o] == Gray ==>
      o in gray || o in later || from == Some(o) || (settling && Settled(heap, marks, o))
  }

  /** No black object points to a white one, except out of `from` or into `to`. */
  ghost predicate NoBlackToWhite(heap: Heap, marks: Marks, from: Option<Obj>, to: Option<Obj>) {
    forall o, x :: o in heap && o in marks && marks[o] == Black && Points(heap[o], x) && from != Some(o) && to != Some(x)
      ==> !IsWhite(marks, x)
  }

  /** Only what lies in `bound` is marked. */
  ghost predicate MarkedWithin(heap: Heap, marks: Marks, bound: set<Obj>) {
    && Closed(heap, bound) && bound <= heap.Keys
    && forall o :: o in marks && !IsWhite(marks, o) ==> o in bound
  }

  ghost predicate Sound(heap: Heap, marks: Marks) {
    && marks.Keys == heap.Keys
    && Closed(heap, heap.Keys)
    && forall o :: o in heap ==> Typed(heap, heap[o])
  }

  ghost predicate Marking(heap: Heap, marks: Marks, white: bool, gray: seq<Obj>, later: seq<Obj>,
                          bound: set<Obj>, settling: bool, from: Option<Obj>, to: Option<Obj>)
  {
    && Sound(heap, marks)
    && KindColors(heap, marks, white)
    && Waiting(marks, gray, later)
    && GrayListed(heap, marks, gray, later, settling, from)
    && NoBlackToWhite(heap, marks, from, to)
    && MarkedWithin(heap, marks, bound)
  }

  ghost function Whites(marks: Marks): set<Obj> { set o | o in marks && marks[o].White? }

  /** Marking turns white objects gray or black and gray ones black, and nothing else. */
  ghost predicate Advances(m: Marks, m': Marks) {
    && m.Keys == m'.Keys
    && forall o :: o in m ==> (!m[o].White? ==> !m'[o].White?) && (m[o] == Black ==> m'[o] == Black)
  }

  lemma GrayOne(heap: Heap, marks: Marks, white: bool, gray: seq<Obj>, later: seq<Obj>, bound: set<Obj>, settling: bool,
                from: Option<Obj>, to: Option<Obj>, o: Obj)
    requires Marking(heap, marks, white, gray, later, bound, settling, from, to)
    requires IsWhite(marks, o) && o in bound && heap[o].kind in {Table, CClosure, Thread}
    ensures Marking(heap, marks[o := Gray], white, [o] + gray, later, bound, settling, from, if to == Some(o) then None else to)
  {
    hide Closed, Typed, Points;
    var marks' := marks[o := Gray];
    var gray' := [o] + gray;
    assert o !in gray && o !in later;
    assert Waiting(marks', gray', later);
    forall p | p in marks' && marks'[p] == Gray
      ensures p in gray' || p in later || from == Some(p) || (settling && Settled(heap, marks', p))
    {
      if p != o && p !in gray && p !in later && from != Some(p) {
        assert settling && Settled(heap, marks, p);
      }
    }
  }

  lemma BlackOne(heap: Heap, marks: Marks, white: bool, gray: seq<Obj>, later: seq<Obj>, bound: set<Obj>, settling: bool,
                 from: Option<Obj>, o: Obj, value: Option<Obj>)
    requires Marking(heap, marks, white, gray, later, bound, settling, from, Some(o))
    requires IsWhite(marks, o) && o in bound && heap[o].kind in {String, Userdata}
    requires forall x :: Points(heap[o], x) && IsWhite(marks, x) && x != o ==> value == Some(x)
    ensures Marking(heap, marks[o := Black], white, gray, later, bound, settling, from, value)
  {
    hide Closed, Typed, Points;
    var marks' := marks[o := Black];
    forall p | p in marks' && marks'[p] == Gray
      ensures p in gray || p in later || from == Some(p) || (settling && Settled(heap, marks', p))
    {
      if p !in gray && p !in later && from != Some(p) {
        assert settling && Settled(heap, marks, p);
      }
    }
  }

  /** A gray object leaves the gray list to be traversed: it turns black, or a thread stays gray. */
  lemma TakeGray(heap: Heap, marks: Marks, white: bool, gray: seq<Obj>, later: seq<Obj>, bound: set<Obj>, settling: bool)
    requires Marking(heap, marks, white, gray, later, bound, settling, None, None) && gray != []
    ensures
      var o := gray[0];
      && o in heap && o in marks && marks[o] == Gray && o in bound
      && if heap[o].kind == Thread then
           && Marking(heap, marks, white, gray[1..], later, bound, settling, Some(o), None)
           && Marking(heap, marks, white, gray[1..], [o] + later, bound, settling, Some(o), None)
         else
           Marking(heap, marks[o := Black], white, gray[1..], later, bound, settling, Some(o), None)
  {
    hide Closed, Typed, Points;
    var o := gray[0];
    assert gray == [o] + gray[1..];
    assert o !in gray[1..] && o !in later;
    var marks' := if heap[o].kind == Thread then marks else marks[o := Black];
    forall p | p in marks' && marks'[p] == Gray
      ensures p in gray[1..] || p in later || Some(o) == Some(p) || (settling && Settled(heap, marks', p))
    {
      if p !in gray && p !in later {
        assert settling && Settled(heap, marks, p);
      }
    }
  }

  /** An object is done when all it refers to is marked. */
  lemma Traversed(heap: Heap, marks: Marks, white: bool, gray: seq<Obj>, later: seq<Obj>, bound: set<Obj>, settling: bool, o: Obj)
    requires Marking(heap, marks, white, gray, later, bound, settling, Some(o), None)
    requires o in heap && (marks[o] == Black || (heap[o].kind == Thread && (settling || o in later)))
    requires forall x :: Points(heap[o], x) ==> !IsWhite(marks, x)
    ensures Marking(heap, marks, white, gray, later, bound, settling, None, None)
  {
    hide Closed, Typed, Points;
  }

  lemma MaySettle(heap: Heap, marks: Marks, white: bool, gray: seq<Obj>, later: seq<Obj>, bound: set<Obj>)
    requires Marking(heap, marks, white, gray, later, bound, false, None, None)
    ensures Marking(heap, marks, white, gray, later, bound, true, None, None)
  {
  }

  /** Once the gray list is empty the postponed objects take its place. */
  lemma Resume(heap: Heap, marks: Marks, white: bool, later: seq<Obj>, bound: set<Obj>, settling: bool)
    requires Marking(heap, marks, white, [], later, bound, settling, None, None)
    ensures Marking(heap, marks, white, later, [], bound, settling, None, None)
  {
    hide Closed, Typed, Points;
  }

  /** Nothing left to visit: what is marked is closed under references. */
  lemma MarkedIsClosed(heap: Heap, marks: Marks, white: bool, bound: set<Obj>, settling: bool, o: Obj, x: Obj)
    requires Marking(heap, marks, white, [], [], bound, settling, None, None)
    requires o in heap && !IsWhite(marks, o) && Points(heap[o], x)
    ensures x in marks && !IsWhite(marks, x)
  {
    hide Typed, Points;
    assert o in heap.Keys;
    if marks[o] == Gray { assert Settled(heap, marks, o); }
  }

  ghost function LiveSet(marks: Marks, white: bool): set<Obj> { set o | o in marks && Live(marks, white, o) }

  /** Live objects refer to live objects only, as Lua allows. */
  ghost predicate LiveClosed(heap: Heap, marks: Marks, white: bool) {
    && marks.Keys == heap.Keys
    && (forall o :: o in heap && Live(marks, white, o) ==> Typed(heap, heap[o]))
    && (forall o, x :: o in heap && Live(marks, white, o) && Points(heap[o], x) ==> Live(marks, white, x))
  }

  lemma LiveSetClosed(heap: Heap, marks: Marks, white: bool, roots: set<Obj>)
    requires LiveClosed(heap, marks, white) && forall r :: r in roots ==> Live(marks, white, r)
    ensures Closed(heap, LiveSet(marks, white)) && roots <= LiveSet(marks, white) <= heap.Keys
  {
    hide Typed, Points;
    var s := LiveSet(marks, white);
    forall o, x | o in s && o in heap && Points(heap[o], x) ensures x in s {
      assert Live(marks, white, o);
      assert Live(marks, white, x);
    }
    forall r | r in roots ensures r in s { assert Live(marks, white, r); }
  }

  ghost predicate AllLive(marks: Marks, white: bool) { forall o :: o in marks ==> marks[o] != White(!white) }

  /** The list of all objects holds each one once; the main thread is apart. */
  ghost predicate Chained(heap: Heap, allgc: seq<Obj>, mainthread: Obj) {
    && NoDuplicates(allgc)
    && (forall o :: o in heap <==> o in allgc || o == mainthread)
    && mainthread !in allgc
  }

  ghost predicate SweptTo(marks: Marks, white: bool, allgc: seq<Obj>, k: nat) {
    forall i :: 0 <= i < k && i < |allgc| ==> allgc[i] in marks && marks[allgc[i]] == White(white)
  }

  /** Freeing a dead object that the sweep has come to. */
  lemma FreeDead(heap: Heap, marks: Marks, white: bool, allgc: seq<Obj>, mainthread: Obj, k: nat)
    requires LiveClosed(heap, marks, white) && Chained(heap, allgc, mainthread) && k < |allgc|
    requires allgc[k] in marks && marks[allgc[k]] == White(!white) && SweptTo(marks, white, allgc, k)
    ensures
      var o := allgc[k];
      var allgc' := allgc[..k] + allgc[k + 1..];
      && LiveClosed(heap - {o}, marks - {o}, white) && Chained(heap - {o}, allgc', mainthread)
      && SweptTo(marks - {o}, white, allgc', k)
      && LiveSet(marks - {o}, white) == LiveSet(marks, white)
  {
    hide Points;
    var o := allgc[k];
    var allgc' := allgc[..k] + allgc[k + 1..];
    forall x ensures x in allgc' <==> x in allgc && x != o {
      if x in allgc && x != o {
        var i :| 0 <= i < |allgc| && allgc[i] == x;
        assert allgc'[if i < k then i else i - 1] == x;
      }
    }
    var heap', marks' := heap - {o}, marks - {o};
    assert forall x :: Live(marks', white, x) <==> Live(marks, white, x);
    forall x | x in heap' && Live(marks', white, x) ensures Typed(heap', heap'[x]) {
      assert Live(marks, white, x) && Typed(heap, heap[x]);
      if heap[x].meta.Ref? {
        MetaPoints(heap[x]);
        assert Live(marks, white, heap[x].meta.obj);
      }
    }
    forall x, y | x in heap' && Live(marks', white, x) && Points(heap'[x], y) ensures Live(marks', white, y) {
      assert Live(marks, white, x) && Live(marks, white, y);
    }
  }

  lemma MetaPoints(ob: Object)
    requires ob.meta.Ref?
    ensures Points(ob, ob.meta.obj)
  {
  }

  /** Turning a live object white for the next cycle. */
  lemma Whiten(heap: Heap, marks: Marks, white: bool, allgc: seq<Obj>, mainthread: Obj, k: nat)
    requires LiveClosed(heap, marks, white) && Chained(heap, allgc, mainthread) && k < |allgc|
    requires allgc[k] in marks && marks[allgc[k]] != White(!white) && SweptTo(marks, white, allgc, k)
    ensures
      var marks' := marks[allgc[k] := White(white)];
      && LiveClosed(heap, marks', white) && SweptTo(marks', white, allgc, k + 1)
      && LiveSet(marks', white) == LiveSet(marks, white)
  {
    hide Typed, Points;
    var marks' := marks[allgc[k] := White(white)];
    assert forall x :: Live(marks', white, x) <==> Live(marks, white, x);
    forall x | x in heap && Live(marks', white, x) ensures Typed(heap, heap[x]) { assert Live(marks, white, x); }
    forall x, y | x in heap && Live(marks', white, x) && Points(heap[x], y) ensures Live(marks', white, y) {
      assert Live(marks, white, x) && Live(marks, white, y);
    }
  }

  /** Colouring one white object. */
  lemma Colored(m: Marks, o: Obj, c: Color)
    requires IsWhite(m, o) && !c.White?
    ensures Advances(m, m[o := c]) && !IsWhite(m[o := c], o)
    ensures o in Whites(m) && Whites(m[o := c]) == Whites(m) - {o}
  {
  }

  ghost predicate AllMarked(marks: Marks, s: set<Obj>) { forall r :: r in s ==> r in marks && !IsWhite(marks, r) }

  lemma StaysMarked(m: Marks, m': Marks, s: set<Obj>)
    requires AllMarked(m, s) && Advances(m, m')
    ensures AllMarked(m', s)
  {
  }

  lemma AdvancesTwice(m: Marks, m': Marks, m'': Marks)
    requires Advances(m, m') && Advances(m', m'')
    ensures Advances(m, m'')
  {
  }

  // Stores of the program.

  /** An object that refers to nothing new, except perhaps `v`. */
  ghost predicate Stored(heap: Heap, o: Obj, ob: Object, v: Value) {
    && o in heap && ob.kind == heap[o].kind && Typed(heap, ob)
    && forall x :: Points(ob, x) ==> Points(heap[o], x) || v == Ref(x)
  }

  lemma StoreIsTyped(heap: Heap, o: Obj, ob: Object, p: Object)
    requires o in heap && ob.kind == heap[o].kind && Typed(heap, p)
    ensures Typed(heap[o := ob], p)
  {
  }

  lemma StoreLive(heap: Heap, marks: Marks, white: bool, o: Obj, ob: Object, v: Value)
    requires LiveClosed(heap, marks, white) && Stored(heap, o, ob, v)
    requires Live(marks, white, o) && (v.Ref? ==> Live(marks, white, v.obj))
    ensures LiveClosed(heap[o := ob], marks, white)
  {
    hide Typed, Points;
    var heap' := heap[o := ob];
    forall p | p in heap' && Live(marks, white, p) ensures Typed(heap', heap'[p]) { StoreIsTyped(heap, o, ob, heap'[p]); }
  }

  /** After a store only the pair of the object and its new reference can break the invariant. */
  lemma StoreMarking(heap: Heap, marks: Marks, white: bool, gray: seq<Obj>, later: seq<Obj>, bound: set<Obj>,
                     o: Obj, ob: Object, v: Value)
    requires Marking(heap, marks, white, gray, later, bound, false, None, None) && Stored(heap, o, ob, v)
    requires v.Ref? ==> v.obj in heap
    ensures Marking(heap[o := ob], marks, white, gray, later, heap.Keys, false, None, if v.Ref? then Some(v.obj) else None)
    ensures Marking(heap[o := ob], marks, white, gray, later, heap.Keys, false, Some(o), None)
    ensures marks[o] != Black || !v.Ref? || !IsWhite(marks, v.obj) ==>
      Marking(heap[o := ob], marks, white, gray, later, heap.Keys, false, None, None)
  {
    hide Typed, Points;
    var heap' := heap[o := ob];
    forall p | p in heap' ensures Typed(heap', heap'[p]) { StoreIsTyped(heap, o, ob, heap'[p]); }
    assert Sound(heap', marks);
    assert KindColors(heap', marks, white);
    assert MarkedWithin(heap', marks, heap.Keys);
  }

  /** A black table becomes gray again and waits for the atomic phase. */
  lemma BackToGray(heap: Heap, marks: Marks, white: bool, gray: seq<Obj>, later: seq<Obj>, bound: set<Obj>, o: Obj)
    requires Marking(heap, marks, white, gray, later, bound, false, Some(o), None)
    requires o in heap && marks[o] == Black && heap[o].kind == Table
    ensures Marking(heap, marks[o := Gray], white, gray, [o] + later, bound, false, None, None)
  {
    hide Closed, Typed, Points;
    assert o !in gray && o !in later;
  }

  lemma Recolored(heap: Heap, marks: Marks, white: bool, o: Obj, c: Color)
    requires LiveClosed(heap, marks, white) && Live(marks, white, o) && c != White(!white)
    ensures LiveClosed(heap, marks[o := c], white)
    ensures forall x :: Live(marks[o := c], white, x) <==> Live(marks, white, x)
  {
    hide Typed, Points;
    var marks' := marks[o := c];
    assert forall x :: Live(marks', white, x) <==> Live(marks, white, x);
    forall x | x in heap && Live(marks', white, x) ensures Typed(heap, heap[x]) { assert Live(marks, white, x); }
    forall x, y | x in heap && Live(marks', white, x) && Points(heap[x], y) ensures Live(marks', white, y) {
      assert Live(marks, white, x) && Live(marks, white, y);
    }
  }

  /** Threads are never black, so their stacks change without a barrier. */
  lemma StackMarking(heap: Heap, marks: Marks, white: bool, gray: seq<Obj>, later: seq<Obj>, bound: set<Obj>,
                     o: Obj, slots: seq<Value>)
    requires Marking(heap, marks, white, gray, later, bound, false, None, None)
    requires o in heap && heap[o].kind == Thread && forall v :: v in slots && v.Ref? ==> v.obj in heap
    ensures Marking(heap[o := heap[o].(slots := slots)], marks, white, gray, later, heap.Keys, false, None, None)
  {
    var ob := heap[o].(slots := slots);
    assert marks[o] != Black && Typed(heap, heap[o]) && Typed(heap, ob);
    assert forall x :: Points(ob, x) ==> x in heap;
    hide Typed, Points;
    var heap' := heap[o := ob];
    forall p | p in heap' ensures Typed(heap', heap'[p]) { StoreIsTyped(heap, o, ob, heap'[p]); }
    assert Sound(heap', marks);
    assert KindColors(heap', marks, white);
    assert MarkedWithin(heap', marks, heap.Keys);
  }

  lemma StackLive(heap: Heap, marks: Marks, white: bool, o: Obj, slots: seq<Value>)
    requires LiveClosed(heap, marks, white) && o in heap && heap[o].kind == Thread && Live(marks, white, o)
    requires forall v :: v in slots && v.Ref? ==> Live(marks, white, v.obj)
    ensures LiveClosed(heap[o := heap[o].(slots := slots)], marks, white)
  {
    var ob := heap[o].(slots := slots);
    assert Typed(heap, heap[o]) && Typed(heap, ob);
    assert ob.meta == Nil;
    assert forall x :: Points(ob, x) ==> Live(marks, white, x);
    hide Typed, Points;
    var heap' := heap[o := ob];
    forall p | p in heap' && Live(marks, white, p) ensures Typed(heap', heap'[p]) { StoreIsTyped(heap, o, ob, heap'[p]); }
  }

  /** What a new object looks like: it refers to nothing yet. */
  function Blank(kind: Kind): Object { Object(kind, Nil, if kind == Userdata then [Nil] else []) }

  lemma NewMarking(heap: Heap, marks: Marks, white: bool, gray: seq<Obj>, later: seq<Obj>, bound: set<Obj>, o: Obj, kind: Kind)
    requires Marking(heap, marks, white, gray, later, bound, false, None, None) && o !in heap
    ensures Marking(heap[o := Blank(kind)], marks[o := White(white)], white, gray, later,
                    heap.Keys + {o}, false, None, None)
  {
    var heap', marks' := heap[o := Blank(kind)], marks[o := White(white)];
    assert forall x :: !Points(Blank(kind), x);
    assert Typed(heap', Blank(kind));
    forall p | p in heap ensures Typed(heap', heap[p]) { assert Typed(heap, heap[p]); }
    hide Typed, Points;
    assert heap'.Keys == heap.Keys + {o};
    assert Sound(heap', marks');
    assert KindColors(heap', marks', white);
    assert MarkedWithin(heap', marks', heap.Keys + {o});
  }

  lemma NewLive(heap: Heap, marks: Marks, white: bool, o: Obj, kind: Kind)
    requires LiveClosed(heap, marks, white) && o !in heap
    ensures LiveClosed(heap[o := Blank(kind)], marks[o := White(white)], white)
    ensures forall x :: Live(marks[o := White(white)], white, x) <==> x == o || Live(marks, white, x)
  {
    var heap', marks' := heap[o := Blank(kind)], marks[o := White(white)];
    assert forall x :: Live(marks', white, x) <==> x == o || Live(marks, white, x);
    assert forall x :: !Points(Blank(kind), x);
    assert Typed(heap', Blank(kind));
    forall p | p in heap && Live(marks, white, p) ensures Typed(heap', heap[p]) { assert Typed(heap, heap[p]); }
    hide Typed, Points;
    forall p, x | p in heap' && Live(marks', white, p) && Points(heap'[p], x) ensures Live(marks', white, x) {
      if p != o { assert Live(marks, white, p) && Live(marks, white, x); }
    }
  }

  lemma NewChained(heap: Heap, marks: Marks, white: bool, allgc: seq<Obj>, mainthread: Obj, o: Obj, ob: Object)
    requires Chained(heap, allgc, mainthread) && o !in heap && marks.Keys == heap.Keys
    ensures Chained(heap[o := ob], [o] + allgc, mainthread)
    ensures forall k: nat :: SweptTo(marks, white, allgc, k) ==> SweptTo(marks[o := White(white)], white, [o] + allgc, k + 1)
  {
    assert o !in allgc && o != mainthread;
    forall k: nat | SweptTo(marks, white, allgc, k)
      ensures SweptTo(marks[o := White(white)], white, [o] + allgc, k + 1)
    {
      assert forall i :: 0 < i <= k && i <= |allgc| ==> ([o] + allgc)[i] == allgc[i - 1];
    }
  }

  /** Objects swept in one step at most. */
  const GCSWEEPMAX := 100

  class Global {
    var heap: Heap
    var marks: Marks
    var allgc: seq<Obj>
    var sweepgc: Option<nat>
    var gray: seq<Obj>
    var grayagain: seq<Obj>
    var currentWhite: bool
    var gcstate: Phase
    const mainthread: Obj
    var running: Obj
    var registry: Value
    var mt: seq<Value>
    ghost var later: seq<Obj>
    ghost var bound: set<Obj>

    ghost predicate MarkingNow(from: Option<Obj>, to: Option<Obj>)
      reads `heap, `marks, `currentWhite, `gray, `later, `bound, `gcstate
    {
      Marking(heap, marks, currentWhite, gray, later, bound, gcstate == InsideAtomic, from, to)
    }

    /** Links a white object to the gray list. */
    method LinkGray(o: Obj)
      modifies `marks, `gray
      ensures marks == old(marks)[o := Gray] && gray == [o] + old(gray)
    {
      marks := marks[o := Gray];
      gray := [o] + gray;
    }

    lemma MarkingFacts(from: Option<Obj>, to: Option<Obj>, o: Obj)
      requires MarkingNow(from, to) && o in marks
      ensures o in heap && marks.Keys == heap.Keys && Typed(heap, heap[o])
      ensures forall x :: Points(heap[o], x) ==> x in heap
      ensures bound <= heap.Keys
      ensures o in bound ==> forall x :: Points(heap[o], x) ==> x in bound
    {
    }

    lemma AlreadyMarked(from: Option<Obj>, o: Obj)
      requires MarkingNow(from, Some(o)) && !IsWhite(marks, o)
      ensures MarkingNow(from, None)
    {
    }

    /** Marks a userdata and its metatable; returns its user value when that is still white. */
    method MarkUserdata(o: Obj, ghost from: Option<Obj>) returns (next: Option<Obj>)
      requires MarkingNow(from, Some(o)) && IsWhite(marks, o) && o in bound && heap[o].kind == Userdata
      modifies `marks, `gray
      ensures MarkingNow(from, next) && Advances(old(marks), marks)
      ensures Whites(marks) <= old(Whites(marks)) - {o}
      ensures next.Some? ==> IsWhite(marks, next.value) && next.value in bound && next.value in Whites(marks)
      ensures |gray| >= |old(gray)|
    {
      hide Marking, Advances, Whites;
      MarkingFacts(from, Some(o), o);
      var meta := heap[o].meta;
      ghost var m0 := marks;
      Colored(m0, o, Black);
      marks := marks[o := Gray];
      if meta.Ref? && marks[meta.obj].White? {
        GrayOne(heap, m0, currentWhite, gray, later, bound, gcstate == InsideAtomic, from, Some(o), meta.obj);
        Colored(m0, meta.obj, Gray);
        m0 := m0[meta.obj := Gray];
        LinkGray(meta.obj);
        Colored(m0, o, Black);
        AdvancesTwice(old(marks), m0, m0[o := Black]);
      }
      var value := heap[o].slots[0];
      ghost var to := if value.Ref? then Some(value.obj) else None;
      BlackOne(heap, m0, currentWhite, gray, later, bound, gcstate == InsideAtomic, from, o, to);
      marks := marks[o := Black];
      assert marks == m0[o := Black];
      next := None;
      if value.Ref? {
        if marks[value.obj].White? { next := Some(value.obj); StartMark(value.obj); } else { AlreadyMarked(from, value.obj); }
      }
    }

    lemma StartMark(o: Obj)
      requires IsWhite(marks, o)
      ensures o in Whites(marks) && Advances(marks, marks)
    {
    }

    /** Marks a white object, and the chain of user values that hangs on it. */
    method ReallyMark(o: Obj, ghost from: Option<Obj>)
      requires MarkingNow(from, Some(o)) && IsWhite(marks, o) && o in bound
      modifies `marks, `gray
      ensures MarkingNow(from, None) && Advances(old(marks), marks)
      ensures Whites(marks) <= old(Whites(marks)) - {o}
      ensures |gray| >= |old(gray)| && (heap[o].kind == Thread ==> gray != [])
    {
      hide Marking, Advances, Whites;
      StartMark(o);
      MarkingFacts(from, Some(o), o);
      var cur := o;
      while true
        invariant MarkingNow(from, Some(cur)) && IsWhite(marks, cur) && cur in bound
        invariant Advances(old(marks), marks) && Whites(marks) <= old(Whites(marks))
        invariant |gray| >= |old(gray)| && o in heap && (cur == o || heap[o].kind == Userdata)
        invariant cur in Whites(marks) && (cur == o || o !in Whites(marks))
        decreases Whites(marks)
      {
        hide Marking, Advances, Whites;
        MarkingFacts(from, Some(cur), cur);
        ghost var m0 := marks;
        var kind := heap[cur].kind;
        if kind == String {
          BlackOne(heap, marks, currentWhite, gray, later, bound, gcstate == InsideAtomic, from, cur, None);
          Colored(marks, cur, Black);
          marks := marks[cur := Black];
          AdvancesTwice(old(marks), m0, marks);
          break;
        } else if kind == Userdata {
          var next := MarkUserdata(cur, from);
          AdvancesTwice(old(marks), m0, marks);
          if next == None { break; }
          cur := next.value;
        } else {
          GrayOne(heap, marks, currentWhite, gray, later, bound, gcstate == InsideAtomic, from, Some(cur), cur);
          Colored(marks, cur, Gray);
          LinkGray(cur);
          AdvancesTwice(old(marks), m0, marks);
          break;
        }
      }
    }

    lemma MayPointTo(from: Option<Obj>, o: Obj)
      requires MarkingNow(from, None)
      ensures MarkingNow(from, Some(o))
    {
    }

    method MarkValue(v: Value, ghost from: Option<Obj>)
      requires MarkingNow(from, None) && (v.Ref? ==> v.obj in bound)
      modifies `marks, `gray
      ensures MarkingNow(from, None) && Advances(old(marks), marks)
      ensures v.Ref? ==> v.obj in marks && !IsWhite(marks, v.obj)
      ensures Whites(marks) <= old(Whites(marks)) && |gray| >= |old(gray)|
      ensures v.Ref? && v.obj in heap && heap[v.obj].kind == Thread && old(IsWhite(marks, v.obj)) ==> gray != []
      ensures gray == old(gray) || Whites(marks) < old(Whites(marks))
    {
      hide Marking;
      if v.Ref? {
        assert v.obj in marks by { BoundAllocated(from); }
        if marks[v.obj].White? {
          MayPointTo(from, v.obj);
          assert v.obj in Whites(marks);
          ReallyMark(v.obj, from);
        }
      }
    }

    lemma BoundAllocated(from: Option<Obj>)
      requires MarkingNow(from, None)
      ensures bound <= marks.Keys == heap.Keys
    {
    }

    /** Marks everything an object refers to: its metatable, then its values in order. */
    method Traverse(o: Obj)
      requires MarkingNow(Some(o), None) && o in bound && o in marks
      modifies `marks, `gray
      ensures MarkingNow(Some(o), None) && Advances(old(marks), marks)
      ensures o in heap && forall x :: Points(heap[o], x) ==> !IsWhite(marks, x)
      ensures Whites(marks) <= old(Whites(marks))
      ensures gray == old(gray) || Whites(marks) < old(Whites(marks))
    {
      hide Marking;
      MarkingFacts(Some(o), None, o);
      MarkValue(heap[o].meta, Some(o));
      var slots := heap[o].slots;
      for i := 0 to |slots|
        invariant MarkingNow(Some(o), None) && Advances(old(marks), marks)
        invariant heap[o].meta.Ref? ==> !IsWhite(marks, heap[o].meta.obj)
        invariant forall k :: 0 <= k < i && slots[k].Ref? ==> slots[k].obj in marks && !IsWhite(marks, slots[k].obj)
        invariant Whites(marks) <= old(Whites(marks))
        invariant gray == old(gray) || Whites(marks) < old(Whites(marks))
      {
        assert slots[i].Ref? ==> Points(heap[o], slots[i].obj);
        MarkValue(slots[i], Some(o));
      }
    }

    /** Takes one object off the gray list and traverses it. */
    method PropagateMark()
      requires MarkingNow(None, None) && gray != []
      requires gcstate != InsideAtomic ==> later == grayagain
      modifies `marks, `gray, `grayagain, `later
      ensures MarkingNow(None, None) && Advances(old(marks), marks)
      ensures later == if gcstate == InsideAtomic then old(later) else grayagain
      ensures Whites(marks) <= old(Whites(marks))
      ensures Whites(marks) == old(Whites(marks)) ==> |gray| < |old(gray)|
    {
      hide Marking;
      var o := gray[0];
      TakeGray(heap, marks, currentWhite, gray, later, bound, gcstate == InsideAtomic);
      gray := gray[1..];
      if heap[o].kind == Thread {
        grayagain := [o] + grayagain;
        if gcstate != InsideAtomic { later := grayagain; }
      } else {
        marks := marks[o := Black];
      }
      Traverse(o);
      Traversed(heap, marks, currentWhite, gray, later, bound, gcstate == InsideAtomic, o);
    }

    method PropagateAll()
      requires MarkingNow(None, None)
      requires gcstate != InsideAtomic ==> later == grayagain
      modifies `marks, `gray, `grayagain, `later
      ensures MarkingNow(None, None) && Advances(old(marks), marks) && gray == []
      ensures later == if gcstate == InsideAtomic then old(later) else grayagain
      ensures Whites(marks) <= old(Whites(marks))
    {
      hide Marking;
      while gray != []
        invariant MarkingNow(None, None) && Advances(old(marks), marks)
        invariant later == if gcstate == InsideAtomic then old(later) else grayagain
        invariant Whites(marks) <= old(Whites(marks))
        decreases Whites(marks), |gray|
      {
        PropagateMark();
      }
    }

    ghost function Roots(): set<Obj>
      reads `running, `registry, `mt
    {
      {mainthread, running} + (if registry.Ref? then {registry.obj} else {})
      + (set v | v in mt && v.Ref? :: v.obj)
    }

    ghost predicate Base()
      reads `heap, `marks, `currentWhite, `allgc, `running, `registry, `mt
    {
      && LiveClosed(heap, marks, currentWhite)
      && Chained(heap, allgc, mainthread)
      && (forall r :: r in Roots() ==> Live(marks, currentWhite, r))
      && mainthread in heap && running in heap
      && heap[mainthread].kind == Thread && heap[running].kind == Thread
    }

    ghost predicate MarkPhase()
      reads this
    {
      && MarkingNow(None, None) && later == grayagain && sweepgc == None
      && mainthread in marks && !IsWhite(marks, mainthread) && Roots() <= bound
    }

    ghost predicate Valid()
      reads this
    {
      && Base()
      && match gcstate
         case Pause => AllLive(marks, currentWhite) && sweepgc == None && forall o :: o in marks ==> marks[o].White?
         case Propagate => MarkPhase() && gray != []
         case Atomic => MarkPhase()
         case InsideAtomic => false
         case SwpAllgc =>
           if sweepgc.Some? then 1 <= sweepgc.value < |allgc| && SweptTo(marks, currentWhite, allgc, sweepgc.value)
           else SweptTo(marks, currentWhite, allgc, |allgc|)
         case CallFin => AllLive(marks, currentWhite) && sweepgc == None && forall o :: o in marks ==> marks[o].White?
         case _ => sweepgc == None && SweptTo(marks, currentWhite, allgc, |allgc|)
    }

    /** Whatever the program can reach is still allocated. */
    lemma NothingReachableIsLost(x: Obj)
      requires Base() && Reachable(heap, Roots(), x)
      ensures x in heap && Live(marks, currentWhite, x)
    {
      LiveSetClosed(heap, marks, currentWhite, Roots());
      ReachableIsLeast(heap, Roots(), LiveSet(marks, currentWhite), x);
    }

    lemma StartBound()
      requires Base() && AllLive(marks, currentWhite) && (forall o :: o in marks ==> marks[o].White?)
      ensures
        var b := ReachableSet(heap, Roots());
        Roots() <= b && Marking(heap, marks, currentWhite, [], [], b, false, None, None)
    {
      hide Typed, Points, Reachable, Roots;
      LiveSetClosed(heap, marks, currentWhite, Roots());
      assert LiveSet(marks, currentWhite) == heap.Keys;
      ReachableSetClosed(heap, Roots(), heap.Keys);
    }

    /** Marks the objects the program starts from. */
    method MarkRoots(first: Value)
      requires MarkingNow(None, None) && Roots() <= bound && (first.Ref? ==> first.obj in bound)
      modifies `marks, `gray
      ensures MarkingNow(None, None) && Advances(old(marks), marks)
      ensures Whites(marks) <= old(Whites(marks)) && |gray| >= |old(gray)|
      ensures first.Ref? && first.obj in heap && heap[first.obj].kind == Thread && old(IsWhite(marks, first.obj)) ==> gray != []
      ensures gray == old(gray) || Whites(marks) < old(Whites(marks))
      ensures first.Ref? ==> first.obj in marks && !IsWhite(marks, first.obj)
      ensures registry.Ref? ==> registry.obj in marks && !IsWhite(marks, registry.obj)
      ensures forall v :: v in mt && v.Ref? ==> v.obj in marks && !IsWhite(marks, v.obj)
    {
      hide Marking;
      MarkValue(first, None);
      assert registry.Ref? ==> registry.obj in Roots();
      MarkValue(registry, None);
      for i := 0 to |mt|
        invariant MarkingNow(None, None) && Advances(old(marks), marks)
        invariant Whites(marks) <= old(Whites(marks)) && |gray| >= |old(gray)|
        invariant first.Ref? && first.obj in heap && heap[first.obj].kind == Thread && old(IsWhite(marks, first.obj)) ==> gray != []
        invariant gray == old(gray) || Whites(marks) < old(Whites(marks))
        invariant first.Ref? ==> first.obj in marks && !IsWhite(marks, first.obj)
        invariant registry.Ref? ==> registry.obj in marks && !IsWhite(marks, registry.obj)
        invariant forall v :: v in mt[..i] && v.Ref? ==> v.obj in marks && !IsWhite(marks, v.obj)
      {
        assert mt[i].Ref? ==> mt[i].obj in Roots();
        MarkValue(mt[i], None);
      }
      assert mt[..|mt|] == mt;
    }

    lemma MainthreadIsRoot()
      ensures mainthread in Roots() && running in Roots()
    {
    }

    /** Starts a cycle: only what is reachable now can be marked until the program stores something. */
    method RestartCollection()
      requires Valid() && gcstate == Pause
      modifies `marks, `gray, `grayagain, `later, `bound
      ensures MarkPhase() && gray != [] && Advances(old(marks), marks)
      ensures bound == ReachableSet(heap, Roots())
    {
      hide LiveClosed, Marking, Roots, ReachableSet, Chained;
      gray, grayagain := [], [];
      later := [];
      StartBound();
      bound := ReachableSet(heap, Roots());
      MainthreadIsRoot();
      assert Live(marks, currentWhite, mainthread);
      MarkRoots(Ref(mainthread));
    }

    lemma RootsMarked()
      requires mainthread in marks && !IsWhite(marks, mainthread) && running in marks && !IsWhite(marks, running)
      requires registry.Ref? ==> registry.obj in marks && !IsWhite(marks, registry.obj)
      requires forall v :: v in mt && v.Ref? ==> v.obj in marks && !IsWhite(marks, v.obj)
      ensures AllMarked(marks, Roots())
    {
    }

    /** The running thread, the registry and the metatables of types may have changed since. */
    method RemarkRoots()
      requires MarkingNow(None, None) && Roots() <= bound && mainthread in marks && !IsWhite(marks, mainthread)
      modifies `marks, `gray
      ensures MarkingNow(None, None) && Advances(old(marks), marks) && AllMarked(marks, Roots())
    {
      hide Marking, Whites;
      MainthreadIsRoot();
      MarkRoots(Ref(running));
      RootsMarked();
    }

    lemma MarkPhaseParts()
      requires MarkPhase()
      ensures MarkingNow(None, None) && later == grayagain && Roots() <= bound
      ensures mainthread in marks && !IsWhite(marks, mainthread)
      ensures gcstate != InsideAtomic ==> Marking(heap, marks, currentWhite, gray, later, bound, false, None, None)
    {
    }

    /** With the atomic phase begun, threads may settle. */
    lemma AtomicBegun()
      requires gcstate == InsideAtomic && Marking(heap, marks, currentWhite, gray, later, bound, true, None, None)
      ensures MarkingNow(None, None)
    {
    }

    /** Traverses the objects put off before the atomic phase. */
    method MarkAgain(saved: seq<Obj>)
      requires MarkingNow(None, None) && gcstate == InsideAtomic && gray == [] && later == saved
      modifies `marks, `gray, `grayagain, `later
      ensures MarkingNow(None, None) && gray == [] && later == [] && Advances(old(marks), marks)
    {
      hide Marking, Advances, Whites;
      Resume(heap, marks, currentWhite, later, bound, true);
      gray := saved;
      later := [];
      PropagateAll();
    }

    /** Finishes marking without interruption, then turns the white of this cycle into the
        colour of the dead. */
    method AtomicPhase()
      requires MarkPhase() && gcstate == Atomic && gray == []
      modifies `marks, `gray, `grayagain, `later, `gcstate, `currentWhite
      ensures gcstate == InsideAtomic && Advances(old(marks), marks)
      ensures LiveClosed(heap, marks, currentWhite) && LiveSet(marks, currentWhite) <= bound
      ensures forall r :: r in Roots() ==> Live(marks, currentWhite, r)
    {
      hide *;
      MarkPhaseParts();
      ghost var m0 := marks;
      var saved := grayagain;
      MaySettle(heap, marks, currentWhite, gray, later, bound);
      gcstate := InsideAtomic;
      AtomicBegun();
      RemarkRoots();
      ghost var m1 := marks;
      PropagateAll();
      ghost var m2 := marks;
      StaysMarked(m1, m2, Roots());
      MarkAgain(saved);
      StaysMarked(m2, marks, Roots());
      AdvancesTwice(m0, m1, m2);
      AdvancesTwice(m0, m2, marks);
      FlipWhite(Roots());
      currentWhite := !currentWhite;
    }

    /** With no gray object left to visit, the marked objects are the live ones once the white flips. */
    lemma FlipWhite(roots: set<Obj>)
      requires MarkingNow(None, None) && gray == [] && later == [] && AllMarked(marks, roots)
      ensures LiveClosed(heap, marks, !currentWhite) && LiveSet(marks, !currentWhite) <= bound
      ensures forall o :: o in roots ==> Live(marks, !currentWhite, o)
    {
      hide Typed, Points;
      forall o, x | o in heap && Live(marks, !currentWhite, o) && Points(heap[o], x)
        ensures Live(marks, !currentWhite, x)
      {
        MarkedIsClosed(heap, marks, currentWhite, bound, gcstate == InsideAtomic, o, x);
      }
    }

    ghost predicate Sweeping(live: set<Obj>, k: nat)
      reads `heap, `marks, `currentWhite, `allgc
    {
      && LiveClosed(heap, marks, currentWhite) && Chained(heap, allgc, mainthread)
      && LiveSet(marks, currentWhite) == live
      && k <= |allgc| && SweptTo(marks, currentWhite, allgc, k)
    }

    /** Frees the dead and whitens the live among at most `count` objects of the list, from position
        `p`. Returns where to go on, if anything is left. No live object is touched otherwise. */
    method SweepList(p: nat, count: nat) returns (r: Option<nat>)
      requires Sweeping(LiveSet(marks, currentWhite), p)
      modifies `heap, `marks, `allgc
      ensures
        var k := if r.Some? then r.value else |allgc|;
        && Sweeping(old(LiveSet(marks, currentWhite)), k) && p <= k && |allgc| - k <= |old(allgc)| - p
        && (r.Some? ==> k < |allgc|)
        && (count > 0 && p < |old(allgc)| ==> |allgc| - k < |old(allgc)| - p)
      ensures heap.Keys <= old(heap.Keys) && forall o :: o in heap ==> heap[o] == old(heap)[o]
    {
      hide LiveClosed, Chained, SweptTo, LiveSet;
      var k: nat := p;
      var left := count;
      ghost var live := LiveSet(marks, currentWhite);
      while k < |allgc| && left > 0
        invariant Sweeping(live, k) && p <= k && |allgc| - k <= |old(allgc)| - p
        invariant heap.Keys <= old(heap.Keys) && forall o :: o in heap ==> heap[o] == old(heap)[o]
        invariant left <= count && (left < count ==> |allgc| - k < |old(allgc)| - p)
        decreases left
      {
        var curr := allgc[k];
        ListedIsMarked(k);
        if marks[curr] == White(!currentWhite) {
          FreeDead(heap, marks, currentWhite, allgc, mainthread, k);
          allgc := allgc[..k] + allgc[k + 1..];
          heap := heap - {curr};
          marks := marks - {curr};
        } else {
          Whiten(heap, marks, currentWhite, allgc, mainthread, k);
          marks := marks[curr := White(currentWhite)];
          k := k + 1;
        }
        left := left - 1;
      }
      r := if k == |allgc| then None else Some(k);
    }

    lemma ListedIsMarked(k: nat)
      requires LiveClosed(heap, marks, currentWhite) && Chained(heap, allgc, mainthread) && k < |allgc|
      ensures allgc[k] in marks
    {
      assert allgc[k] in allgc;
    }

    /** Sweeps up to and including the first live object of the list. */
    method SweepToLive() returns (r: Option<nat>)
      requires Sweeping(LiveSet(marks, currentWhite), 0)
      modifies `heap, `marks, `allgc
      ensures
        var k := if r.Some? then r.value else |allgc|;
        Sweeping(old(LiveSet(marks, currentWhite)), k) && (r.Some? ==> 1 <= k < |allgc|)
      ensures heap.Keys <= old(heap.Keys) && forall o :: o in heap ==> heap[o] == old(heap)[o]
    {
      hide Sweeping, LiveSet;
      r := SweepList(0, 1);
      while r == Some(0)
        invariant
          var k := if r.Some? then r.value else |allgc|;
          Sweeping(old(LiveSet(marks, currentWhite)), k) && (r.Some? ==> k < |allgc|)
        invariant heap.Keys <= old(heap.Keys) && forall o :: o in heap ==> heap[o] == old(heap)[o]
        decreases |allgc| - if r.Some? then r.value else |allgc|
      {
        SweepingSame(old(LiveSet(marks, currentWhite)), 0);
        r := SweepList(0, 1);
      }
    }

    lemma SweepingSame(live: set<Obj>, k: nat)
      requires Sweeping(live, k)
      ensures LiveSet(marks, currentWhite) == live && Sweeping(LiveSet(marks, currentWhite), k) && k <= |allgc|
    {
    }

    /** While marking, no black object points to a white one, no thread is black, and every gray
        object is on a list. */
    lemma BlackNeverPointsToWhite(o: Obj, x: Obj)
      requires Valid() && gcstate in {Propagate, Atomic} && o in heap
      ensures marks[o] == Black && Points(heap[o], x) ==> x in marks && !IsWhite(marks, x)
      ensures marks[o] == Black ==> heap[o].kind != Thread
      ensures marks[o] == Gray ==> o in gray || o in grayagain
    {
      if Points(heap[o], x) { assert x in heap.Keys; }
    }

    // One step of the collector.

    /** The objects that can still be there at the end of the cycle. */
    ghost function Survivors(): set<Obj>
      reads `marks, `currentWhite, `gcstate, `bound
    {
      if gcstate in {Propagate, Atomic} then bound else LiveSet(marks, currentWhite)
    }

    /** A step leaves objects as they are or frees them, and never lets more survive. */
    twostate predicate Narrows()
      reads `heap, `marks, `currentWhite, `gcstate, `bound
    {
      && heap.Keys <= old(heap.Keys)
      && (forall o :: o in heap ==> heap[o] == old(heap)[o])
      && Survivors() <= old(Survivors())
    }

    method StepPause()
      requires Valid() && gcstate == Pause
      modifies `marks, `gray, `grayagain, `later, `bound, `gcstate
      ensures Valid() && gcstate == Propagate && heap == old(heap)
      ensures Survivors() == old(ReachableSet(heap, Roots()))
    {
      hide Marking, LiveClosed, Roots, ReachableSet;
      RestartCollection();
      gcstate := Propagate;
      MarkPhaseIsLive();
    }

    /** While marking, every object counts as live. */
    lemma MarkPhaseIsLive()
      requires MarkPhase() && Roots() <= bound
      ensures LiveClosed(heap, marks, currentWhite) && AllLive(marks, currentWhite)
      ensures forall r :: r in Roots() ==> Live(marks, currentWhite, r)
    {
      hide Typed, Points, Roots;
      forall o | o in marks ensures Live(marks, currentWhite, o) { assert o in heap; }
    }

    method StepPropagate()
      requires Valid() && gcstate == Propagate
      modifies `marks, `gray, `grayagain, `later, `gcstate
      ensures Valid() && gcstate in {Propagate, Atomic} && Narrows()
      ensures Whites(marks) <= old(Whites(marks))
      ensures Whites(marks) == old(Whites(marks)) ==> |gray| < |old(gray)|
    {
      hide Marking, LiveClosed, Roots, LiveSet;
      PropagateMark();
      if gray == [] { gcstate := Atomic; }
      MarkPhaseIsLive();
    }

    method EnterSweep()
      requires Base() && sweepgc == None
      modifies `heap, `marks, `allgc, `gcstate, `sweepgc
      ensures Valid() && gcstate == SwpAllgc
      ensures heap.Keys <= old(heap.Keys) && (forall o :: o in heap ==> heap[o] == old(heap)[o])
      ensures LiveSet(marks, currentWhite) == old(LiveSet(marks, currentWhite))
    {
      hide LiveClosed, Chained, Roots, SweptTo;
      gcstate := SwpAllgc;
      SweptNothing();
      LiveSetClosed(heap, marks, currentWhite, Roots());
      ghost var live := LiveSet(marks, currentWhite);
      sweepgc := SweepToLive();
      BaseKept(live, old(heap));
    }

    lemma SweptNothing()
      ensures SweptTo(marks, currentWhite, allgc, 0)
    {
    }

    /** Sweeping keeps the roots. */
    lemma BaseKept(live: set<Obj>, heap0: Heap)
      requires LiveClosed(heap, marks, currentWhite) && Chained(heap, allgc, mainthread)
      requires LiveSet(marks, currentWhite) == live && Roots() <= live
      requires heap.Keys <= heap0.Keys && forall o :: o in heap ==> heap[o] == heap0[o]
      requires mainthread in heap0 && running in heap0
      requires heap0[mainthread].kind == Thread && heap0[running].kind == Thread
      ensures Base()
    {
      hide LiveClosed, Chained;
      MainthreadIsRoot();
      hide Roots;
      forall r | r in Roots() ensures Live(marks, currentWhite, r) { assert r in live; }
      assert marks.Keys == heap.Keys by { SameKeys(); }
    }

    lemma SameKeys()
      requires LiveClosed(heap, marks, currentWhite)
      ensures marks.Keys == heap.Keys
    {
    }

    method StepAtomic()
      requires Valid() && gcstate == Atomic
      modifies `heap, `marks, `allgc, `gray, `grayagain, `later, `gcstate, `currentWhite, `sweepgc
      ensures Valid() && gcstate == SwpAllgc && Narrows()
    {
      hide Marking, LiveClosed, Chained, Roots, LiveSet, SweptTo, Whites;
      PropagateAll();
      AtomicPhase();
      EnterSweep();
    }

    method StepSweep()
      requires Valid() && gcstate == SwpAllgc
      modifies `heap, `marks, `allgc, `gcstate, `sweepgc
      ensures Valid() && gcstate in {SwpAllgc, SwpFinobj} && Narrows()
      ensures gcstate == SwpAllgc ==> Unswept() < old(Unswept())
    {
      hide LiveClosed, Chained, Roots, SweptTo;
      LiveSetClosed(heap, marks, currentWhite, Roots());
      ghost var live := LiveSet(marks, currentWhite);
      if sweepgc.Some? {
        sweepgc := SweepList(sweepgc.value, GCSWEEPMAX);
        BaseKept(live, old(heap));
        if sweepgc.Some? { return; }
      }
      gcstate := SwpFinobj;
    }

    ghost function Unswept(): nat
      reads `allgc, `sweepgc
    {
      if sweepgc.Some? && sweepgc.value <= |allgc| then |allgc| - sweepgc.value else 0
    }

    method StepSweepEnd()
      requires Valid() && gcstate == SwpEnd
      modifies `marks, `gcstate
      ensures Valid() && gcstate == CallFin && Narrows()
    {
      MainthreadIsRoot();
      hide Roots, Typed, Points;
      ghost var m0 := marks;
      marks := marks[mainthread := White(currentWhite)];
      gcstate := CallFin;
      forall x ensures Live(marks, currentWhite, x) <==> Live(m0, currentWhite, x) {}
      forall x | x in heap && Live(marks, currentWhite, x) ensures Typed(heap, heap[x]) { assert Live(m0, currentWhite, x); }
      forall x, y | x in heap && Live(marks, currentWhite, x) && Points(heap[x], y) ensures Live(marks, currentWhite, y) {
        assert Live(m0, currentWhite, x) && Live(m0, currentWhite, y);
      }
    }

    /** One step of the collector, in any state. Nothing the program can reach is freed. */
    method SingleStep()
      requires Valid()
      modifies `heap, `marks, `allgc, `sweepgc, `gray, `grayagain, `currentWhite, `gcstate, `later, `bound
      ensures Valid() && heap.Keys <= old(heap.Keys) && (forall o :: o in heap ==> heap[o] == old(heap)[o])
      ensures forall x :: old(Reachable(heap, Roots(), x)) ==> x in heap
      ensures old(gcstate) != Pause ==> Survivors() <= old(Survivors())
      ensures old(gcstate) == Pause ==> gcstate == Propagate && Survivors() == old(ReachableSet(heap, Roots()))
      ensures old(gcstate) != Pause ==>
        Rank(gcstate) < Rank(old(gcstate))
        || (gcstate == old(gcstate) == Propagate &&
              (Whites(marks) < old(Whites(marks)) || (Whites(marks) == old(Whites(marks)) && |gray| < |old(gray)|)))
        || (gcstate == old(gcstate) == SwpAllgc && Unswept() < old(Unswept()))
    {
      hide Base, MarkPhase, LiveSet, Roots, SweptTo, AllLive, Reachable, ReachableSet, Unswept, Whites;
      match gcstate {
        case Pause => StepPause();
        case Propagate => StepPropagate();
        case Atomic => StepAtomic();
        case SwpAllgc => StepSweep();
        case SwpFinobj => gcstate := SwpTobefnz; SameSurvivors(SwpTobefnz);
        case SwpTobefnz => gcstate := SwpEnd; SameSurvivors(SwpEnd);
        case SwpEnd => StepSweepEnd();
        case CallFin => gcstate := Pause; SameSurvivors(Pause);
      }
      ReachableKept(old(heap));
    }

    lemma SameSurvivors(p: Phase)
      requires gcstate == p && p !in {Propagate, Atomic}
      ensures Survivors() == LiveSet(marks, currentWhite)
    {
    }

    function Rank(p: Phase): nat {
      match p
      case Pause => 0
      case CallFin => 1
      case SwpEnd => 2
      case SwpTobefnz => 3
      case SwpFinobj => 4
      case SwpAllgc => 5
      case InsideAtomic => 6
      case Atomic => 7
      case Propagate => 8
    }

    lemma ReachableKept(heap0: Heap)
      requires Base() && heap.Keys <= heap0.Keys && forall o :: o in heap ==> heap[o] == heap0[o]
      ensures forall x :: Reachable(heap0, Roots(), x) ==> x in heap
    {
      hide Typed, Roots, Reachable, Points;
      var live := LiveSet(marks, currentWhite);
      LiveSetClosed(heap, marks, currentWhite, Roots());
      assert Closed(heap0, live);
      forall x | Reachable(heap0, Roots(), x) ensures x in heap {
        ReachableIsLeast(heap0, Roots(), live, x);
      }
    }

    /** Steps until the cycle is over. */
    method RunUntilPause()
      requires Valid()
      modifies `heap, `marks, `allgc, `sweepgc, `gray, `grayagain, `currentWhite, `gcstate, `later, `bound
      ensures Valid() && gcstate == Pause
      ensures heap.Keys <= old(heap.Keys) && (forall o :: o in heap ==> heap[o] == old(heap)[o])
      ensures forall x :: old(Reachable(heap, Roots(), x)) ==> x in heap
      ensures Survivors() <= old(Survivors())
    {
      hide Base, MarkPhase, LiveSet, Roots, SweptTo, AllLive, Reachable, ReachableSet, Unswept, Whites;
      ghost var heap0, roots := heap, Roots();
      StillThere();
      while gcstate != Pause
        invariant Valid() && roots == Roots()
        invariant heap.Keys <= heap0.Keys && forall o :: o in heap ==> heap[o] == heap0[o]
        invariant forall x :: Reachable(heap0, roots, x) ==> x in heap
        invariant Survivors() <= old(Survivors())
        decreases
          Rank(gcstate),
          if gcstate == Propagate then Whites(marks) else {},
          if gcstate == Propagate then |gray| else Unswept()
      {
        SameReachable(heap0, heap, roots);
        SingleStep();
      }
    }

    lemma StillThere()
      requires Valid()
      ensures forall x :: Reachable(heap, Roots(), x) ==> x in heap
    {
      forall x | Reachable(heap, Roots(), x) ensures x in heap { NothingReachableIsLost(x); }
    }

    /** A full collection keeps exactly what the program can reach, unchanged. */
    method FullGC()
      requires Valid()
      modifies `heap, `marks, `allgc, `sweepgc, `gray, `grayagain, `currentWhite, `gcstate, `later, `bound
      ensures Valid() && gcstate == Pause
      ensures heap.Keys == old(ReachableSet(heap, Roots()))
      ensures forall o :: o in heap ==> o in old(heap) && heap[o] == old(heap)[o]
    {
      hide Base, MarkPhase, LiveSet, Roots, SweptTo, AllLive, Reachable, ReachableSet, Unswept, Whites;
      ghost var heap0, roots := heap, Roots();
      if gcstate in {Propagate, Atomic} {
        BaseOf();
        EnterSweep();
      }
      BaseOf();
      ReachableKept(heap0);
      ghost var heap1 := heap;
      SameReachable(heap0, heap1, roots);
      RunUntilPause();
      SameReachable(heap1, heap, roots);
      ghost var heap2 := heap;
      SingleStep();
      SameReachable(heap2, heap, roots);
      RunUntilPause();
      AllSurvive(heap2);
    }

    lemma BaseOf()
      requires Valid()
      ensures Base() && (gcstate in {Propagate, Atomic} ==> sweepgc == None)
    {
    }

    /** At rest the heap holds the survivors, which include all that was reachable. */
    lemma AllSurvive(heap0: Heap)
      requires Valid() && gcstate == Pause && Survivors() <= ReachableSet(heap0, Roots())
      requires forall x :: Reachable(heap0, Roots(), x) ==> x in heap
      ensures heap.Keys == ReachableSet(heap0, Roots())
    {
      hide Reachable, Roots, Typed, Points;
      forall x | x in heap ensures x in ReachableSet(heap0, Roots()) {
        assert x in heap.Keys && x in marks;
        assert Live(marks, currentWhite, x);
        assert x in Survivors();
      }
    }

    // The program.

    /** The state of a program that has only its main thread and its registry. */
    constructor (main: Obj, reg: Obj, types: nat)
      requires main != reg
      ensures Valid() && gcstate == Pause && heap.Keys == {main, reg} && mainthread == main
    {
      mainthread := main;
      running := main;
      registry := Ref(reg);
      mt := seq(types, _ => Nil);
      heap := map[main := Object(Thread, Nil, []), reg := Object(Table, Nil, [])];
      marks := map[main := White(false), reg := White(false)];
      currentWhite := false;
      allgc := [reg];
      sweepgc, gcstate := None, Pause;
      gray, grayagain := [], [];
      later, bound := [], {};
    }

    /** Keeps the order of the colours when the program stores a reference in a
        black object: the white one is marked while marking is on; during the sweep the black
        one is swept at once. */
    method Barrier(o: Obj, v: Obj)
      requires gcstate in {Propagate, Atomic} ==>
        MarkingNow(None, Some(v)) && IsWhite(marks, v) && v in bound && later == grayagain
      requires o in marks
      modifies `marks, `gray
      ensures Advances(old(marks), marks) || marks == old(marks)[o := White(currentWhite)]
      ensures
        if gcstate in {Propagate, Atomic} then
          MarkingNow(None, None) && Advances(old(marks), marks) && |gray| >= |old(gray)|
        else marks == old(marks)[o := White(currentWhite)] && gray == old(gray)
    {
      if gcstate in {Propagate, Atomic} {
        ReallyMark(v, None);
      } else {
        marks := marks[o := White(currentWhite)];
      }
    }

    /** Turns a black table gray again instead. */
    method BarrierBack(t: Obj)
      modifies `marks, `grayagain, `later
      ensures marks == old(marks)[t := Gray] && grayagain == [t] + old(grayagain) && later == grayagain
    {
      marks := marks[t := Gray];
      grayagain := [t] + grayagain;
      later := grayagain;
    }

    /** Puts a new reference into an object that is not a thread, with the barrier that goes
        with it. */
    method Store(o: Obj, ob: Object, v: Value, back: bool)
      requires Valid() && Stored(heap, o, ob, v) && ob.kind != Thread && (back ==> ob.kind == Table)
      requires Reachable(heap, Roots(), o) && (v.Ref? ==> Reachable(heap, Roots(), v.obj))
      modifies `heap, `marks, `gray, `grayagain, `later, `bound
      ensures Valid() && heap == old(heap)[o := ob]
    {
      hide Marking, LiveClosed, Roots, Reachable, Stored, Advances, Chained, SweptTo, Live, AllLive;
      UseReachable(o, v);
      if gcstate in {Propagate, Atomic} {
        StoreWhileMarking(o, ob, v, back);
      } else {
        StoreOutsideMarking(o, ob, v, back);
      }
    }

    lemma UseReachable(o: Obj, v: Value)
      requires Valid() && Reachable(heap, Roots(), o) && (v.Ref? ==> Reachable(heap, Roots(), v.obj))
      ensures o in heap && o in marks && Live(marks, currentWhite, o)
      ensures v.Ref? ==> v.obj in heap && v.obj in marks && Live(marks, currentWhite, v.obj)
    {
      NothingReachableIsLost(o);
      if v.Ref? { NothingReachableIsLost(v.obj); }
    }

    method StoreAndMark(o: Obj, ob: Object, v: Value, back: bool)
      requires MarkPhase() && gcstate in {Propagate, Atomic} && Stored(heap, o, ob, v) && (back ==> ob.kind == Table)
      requires o in marks && (v.Ref? ==> v.obj in marks && v.obj in heap)
      modifies `heap, `marks, `gray, `grayagain, `later, `bound
      ensures MarkPhase() && heap == old(heap)[o := ob] && heap.Keys == old(heap).Keys && |gray| >= |old(gray)|
    {
      hide Marking, Roots, Advances, Typed, Points;
      StoreMarking(heap, marks, currentWhite, gray, later, bound, o, ob, v);
      BoundAllocated(None);
      heap := heap[o := ob];
      bound := heap.Keys;
      assert bound == old(heap).Keys;
      if v.Ref? && marks[o] == Black && marks[v.obj].White? {
        if back {
          BackToGray(heap, marks, currentWhite, gray, later, bound, o);
          BarrierBack(o);
        } else {
          ghost var m0 := marks;
          Barrier(o, v.obj);
          StaysMarked1(m0, mainthread);
        }
      }
    }

    method StoreWhileMarking(o: Obj, ob: Object, v: Value, back: bool)
      requires Valid() && gcstate in {Propagate, Atomic} && Stored(heap, o, ob, v) && (back ==> ob.kind == Table)
      requires o in marks && (v.Ref? ==> v.obj in marks && v.obj in heap)
      modifies `heap, `marks, `gray, `grayagain, `later, `bound
      ensures Valid() && heap == old(heap)[o := ob]
    {
      hide Marking, LiveClosed, Roots, Chained, SweptTo, Live, AllLive;
      KindKept(ob, v, o);
      StoreAndMark(o, ob, v, back);
      MarkPhaseIsLive();
      ChainedByKeys(old(heap));
    }

    lemma StaysMarked1(m0: Marks, o: Obj)
      requires Advances(m0, marks) && o in m0 && !IsWhite(m0, o)
      ensures o in marks && !IsWhite(marks, o)
    {
    }

    lemma ChainedByKeys(heap0: Heap)
      requires Chained(heap0, allgc, mainthread) && heap.Keys == heap0.Keys
      ensures Chained(heap, allgc, mainthread)
    {
      forall x ensures x in heap <==> x in heap0 { assert x in heap.Keys <==> x in heap0.Keys; }
    }

    method StoreOutsideMarking(o: Obj, ob: Object, v: Value, back: bool)
      requires Valid() && gcstate !in {Propagate, Atomic} && Stored(heap, o, ob, v)
      requires o in marks && Live(marks, currentWhite, o)
      requires v.Ref? ==> v.obj in marks && Live(marks, currentWhite, v.obj)
      modifies `heap, `marks, `gray, `grayagain, `later
      ensures Valid() && heap == old(heap)[o := ob]
    {
      hide Marking, LiveClosed, Chained, SweptTo, Live, Stored, Roots;
      KindKept(ob, v, o);
      StoreLive(heap, marks, currentWhite, o, ob, v);
      heap := heap[o := ob];
      if v.Ref? && marks[o] == Black && marks[v.obj].White? {
        ghost var c := if back then Gray else White(currentWhite);
        Recolored(heap, marks, currentWhite, o, c);
        NotSweptYet(o, c);
        if back { BarrierBack(o); } else { Barrier(o, v.obj); }
      }
      ChainedByKeys(old(heap));
    }

    lemma KindKept(ob: Object, v: Value, o: Obj)
      requires Stored(heap, o, ob, v)
      ensures o in heap && ob.kind == heap[o].kind
    {
    }

    /** A black object is not in the part of the list that has been swept. */
    lemma NotSweptYet(o: Obj, c: Color)
      requires o in marks && marks[o] == Black
      ensures forall k: nat :: SweptTo(marks, currentWhite, allgc, k) ==> SweptTo(marks[o := c], currentWhite, allgc, k)
    {
    }

    /** `t[k] = v`: a table that was black goes back to gray. Writes past the end add a slot. */
    method SetTableSlot(t: Obj, i: nat, v: Value)
      requires Valid() && t in heap && heap[t].kind == Table && i <= |heap[t].slots|
      requires Reachable(heap, Roots(), t) && (v.Ref? ==> Reachable(heap, Roots(), v.obj))
      modifies `heap, `marks, `gray, `grayagain, `later, `bound
      ensures Valid() && heap == old(heap[t := heap[t].(slots := Put(heap[t].slots, i, v))])
    {
      hide Valid, Reachable;
      var ob := heap[t].(slots := Put(heap[t].slots, i, v));
      PutIsStored(t, i, v);
      Store(t, ob, v, true);
    }

    /** Sets an upvalue of a closure or the user value of a userdata: the new value is marked forward. */
    method SetOwnedSlot(o: Obj, i: nat, v: Value)
      requires Valid() && o in heap && heap[o].kind in {CClosure, Userdata} && i < |heap[o].slots|
      requires Reachable(heap, Roots(), o) && (v.Ref? ==> Reachable(heap, Roots(), v.obj))
      modifies `heap, `marks, `gray, `grayagain, `later, `bound
      ensures Valid() && heap == old(heap[o := heap[o].(slots := Put(heap[o].slots, i, v))])
    {
      hide Valid, Reachable;
      var ob := heap[o].(slots := Put(heap[o].slots, i, v));
      PutIsStored(o, i, v);
      Store(o, ob, v, false);
    }

    method SetMetatable(o: Obj, m: Value)
      requires Valid() && o in heap && heap[o].kind in {Table, Userdata} && Reachable(heap, Roots(), o)
      requires m.Ref? ==> Reachable(heap, Roots(), m.obj) && m.obj in heap && heap[m.obj].kind == Table
      modifies `heap, `marks, `gray, `grayagain, `later, `bound
      ensures Valid() && heap == old(heap[o := heap[o].(meta := m)])
    {
      hide Reachable;
      UseReachable(o, m);
      var ob := heap[o].(meta := m);
      Store(o, ob, m, false);
    }

    function Put(slots: seq<Value>, i: nat, v: Value): seq<Value>
      requires i <= |slots|
    {
      if i < |slots| then slots[i := v] else slots + [v]
    }

    lemma PutIsStored(o: Obj, i: nat, v: Value)
      requires Valid() && o in heap && i <= |heap[o].slots| && heap[o].kind in {Table, CClosure, Userdata}
      requires Reachable(heap, Roots(), o) && (heap[o].kind == Userdata ==> i < |heap[o].slots|)
      ensures Stored(heap, o, heap[o].(slots := Put(heap[o].slots, i, v)), v)
    {
      hide Reachable, Put;
      UseReachable(o, Nil);
      var ob := heap[o].(slots := Put(heap[o].slots, i, v));
      assert Typed(heap, heap[o]);
      PutRefs(heap[o].slots, i, v);
    }

    lemma PutRefs(slots: seq<Value>, i: nat, v: Value)
      requires i <= |slots|
      ensures |Put(slots, i, v)| == if i < |slots| then |slots| else |slots| + 1
      ensures forall w :: w in Put(slots, i, v) ==> w in slots || w == v
    {
    }

    method ReplaceStack(th: Obj, slots: seq<Value>)
      requires Valid() && th in heap && heap[th].kind == Thread && Live(marks, currentWhite, th)
      requires forall v :: v in slots && v.Ref? ==> Live(marks, currentWhite, v.obj)
      modifies `heap, `bound
      ensures Valid() && heap == old(heap[th := heap[th].(slots := slots)])
    {
      hide Marking, LiveClosed, Roots, Chained, SweptTo, Advances, Live;
      LiveAllocated(slots);
      StackLive(heap, marks, currentWhite, th, slots);
      if gcstate in {Propagate, Atomic} {
        StackMarking(heap, marks, currentWhite, gray, later, bound, th, slots);
        BoundAllocated(None);
        bound := heap.Keys;
      }
      heap := heap[th := heap[th].(slots := slots)];
      ChainedByKeys(old(heap));
    }

    /** Changes a stack: values move between reachable places without any barrier. */
    method SetStack(th: Obj, slots: seq<Value>)
      requires Valid() && th in heap && heap[th].kind == Thread && Reachable(heap, Roots(), th)
      requires forall v :: v in slots && v.Ref? ==> Reachable(heap, Roots(), v.obj)
      modifies `heap, `bound
      ensures Valid() && heap == old(heap[th := heap[th].(slots := slots)])
    {
      hide Reachable, Roots, Live;
      UseReachable(th, Nil);
      forall v | v in slots && v.Ref? ensures Live(marks, currentWhite, v.obj) { UseReachable(th, v); }
      ReplaceStack(th, slots);
    }

    lemma LiveAllocated(slots: seq<Value>)
      requires Base() && forall v :: v in slots && v.Ref? ==> Live(marks, currentWhite, v.obj)
      ensures forall v :: v in slots && v.Ref? ==> v.obj in heap
    {
      hide Typed, Points, Roots;
      forall v | v in slots && v.Ref? ensures v.obj in heap { assert v.obj in heap.Keys; }
    }

    /** The new object is white, first in the list, and on the stack of the running thread. */
    method NewObject(o: Obj, kind: Kind)
      requires Valid() && o !in heap
      modifies `heap, `marks, `allgc, `sweepgc, `bound
      ensures Valid() && o in heap && heap[o] == Blank(kind) && Reachable(heap, Roots(), o)
      ensures heap == old(heap[o := Blank(kind)][running := heap[running].(slots := heap[running].slots + [Ref(o)])])
    {
      hide Marking, Reachable, SweptTo;
      LinkNew(o, kind);
      ghost var h1 := heap;
      assert Live(marks, currentWhite, running) && Live(marks, currentWhite, o) by { NewIsLive(o); }
      StackIsLive(running);
      ReplaceStack(running, heap[running].slots + [Ref(o)]);
      MainthreadIsRoot();
      RootsReachable(heap, Roots(), running);
      assert Ref(o) in heap[running].slots;
      ReachStep(heap, Roots(), running, o);
    }

    lemma NewIsLive(o: Obj)
      requires Base() && o in marks && marks[o] == White(currentWhite)
      ensures Live(marks, currentWhite, running) && Live(marks, currentWhite, o)
    {
      MainthreadIsRoot();
    }

    lemma StackIsLive(th: Obj)
      requires Base() && th in heap && Live(marks, currentWhite, th)
      ensures forall v :: v in heap[th].slots && v.Ref? ==> Live(marks, currentWhite, v.obj)
    {
      hide Typed, Roots;
      forall v | v in heap[th].slots && v.Ref? ensures Live(marks, currentWhite, v.obj) {
        assert Points(heap[th], v.obj);
      }
    }

    method LinkNew(o: Obj, kind: Kind)
      requires Valid() && o !in heap
      modifies `heap, `marks, `allgc, `sweepgc, `bound
      ensures Valid() && heap == old(heap)[o := Blank(kind)] && marks == old(marks)[o := White(currentWhite)]
    {
      hide Marking, LiveClosed, Roots, Chained, SweptTo, Live, Blank;
      LiveKeys();
      NewLive(heap, marks, currentWhite, o, kind);
      NewChained(heap, marks, currentWhite, allgc, mainthread, o, Blank(kind));
      if gcstate in {Propagate, Atomic} {
        NewMarking(heap, marks, currentWhite, gray, later, bound, o, kind);
        BoundAllocated(None);
        bound := heap.Keys + {o};
      }
      heap := heap[o := Blank(kind)];
      marks := marks[o := White(currentWhite)];
      allgc := [o] + allgc;
      if sweepgc.Some? { sweepgc := Some(sweepgc.value + 1); }
    }

    lemma LiveKeys()
      requires Base()
      ensures marks.Keys == heap.Keys
    {
    }

    /** Another thread runs. */
    method SetRunning(th: Obj)
      requires Valid() && th in heap && heap[th].kind == Thread && Reachable(heap, Roots(), th)
      modifies `running, `bound
      ensures Valid() && running == th
    {
      hide Marking, LiveClosed, Reachable, Chained, SweptTo, Live;
      UseReachable(th, Nil);
      if gcstate in {Propagate, Atomic} {
        WidenBound();
        bound := heap.Keys;
      }
      running := th;
    }

    /** The metatable of a basic type; looked at again in the atomic phase. */
    method SetTypeMetatable(i: nat, m: Value)
      requires Valid() && i < |mt| && (m.Ref? ==> Reachable(heap, Roots(), m.obj))
      modifies `mt, `bound
      ensures Valid() && mt == old(mt)[i := m]
    {
      hide Marking, LiveClosed, Reachable, Chained, SweptTo, Live;
      if m.Ref? { UseReachable(m.obj, Nil); }
      if gcstate in {Propagate, Atomic} {
        WidenBound();
        bound := heap.Keys;
      }
      mt := mt[i := m];
    }

    lemma WidenBound()
      requires MarkingNow(None, None)
      ensures Marking(heap, marks, currentWhite, gray, later, heap.Keys, gcstate == InsideAtomic, None, None)
      ensures bound <= heap.Keys == marks.Keys
    {
    }
  }
}
