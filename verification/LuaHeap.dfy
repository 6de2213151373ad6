/** Objects of the Lua heap, their colours, and what the program can reach. */
module LuaHeap {

  type Obj = int

  datatype Value = Nil | Ref(obj: Obj)

  datatype Kind = String | Userdata | Table | CClosure | Thread

  /** An object with its metatable and the values it holds: the contents of a table, the
      upvalues of a closure, the stack of a thread, the user value of a userdata. */
  datatype Object = Object(kind: Kind, meta: Value, slots: seq<Value>)

  /** There are two whites: in each cycle one of them is current and the other marks dead objects. */
  datatype Color = White(bit: bool) | Gray | Black

  type Heap = map<Obj, Object>
  type Marks = map<Obj, Color>

  predicate Points(ob: Object, x: Obj) { ob.meta == Ref(x) || Ref(x) in ob.slots }

  predicate IsWhite(marks: Marks, x: Obj) { x in marks && marks[x].White? }

  /** An object that is not marked with the white of the previous cycle. */
  predicate Live(marks: Marks, white: bool, x: Obj) { x in marks && marks[x] != White(!white) }

  /** What Lua allows an object of each kind to refer to. */
  predicate Typed(heap: Heap, ob: Object) {
    && (ob.meta.Ref? ==> ob.kind in {Table, Userdata} && ob.meta.obj in heap && heap[ob.meta.obj].kind == Table)
    && (ob.kind == String ==> ob.slots == [])
    && (ob.kind == Userdata ==> |ob.slots| == 1)
  }

  // Reachability.

  ghost predicate IsPath(heap: Heap, roots: set<Obj>, p: seq<Obj>) {
    && p != [] && p[0] in roots
    && forall i :: 0 <= i < |p| - 1 ==> p[i] in heap && Points(heap[p[i]], p[i + 1])
  }

  ghost predicate Reachable(heap: Heap, roots: set<Obj>, x: Obj) {
    exists p :: IsPath(heap, roots, p) && p[|p| - 1] == x
  }

  /** A set of objects that contains all its members refer to. */
  ghost predicate Closed(heap: Heap, s: set<Obj>) {
    forall o, x :: o in s && o in heap && Points(heap[o], x) ==> x in s
  }

  lemma {:induction false} PathStays(heap: Heap, roots: set<Obj>, s: set<Obj>, p: seq<Obj>)
    requires Closed(heap, s) && roots <= s && IsPath(heap, roots, p)
    ensures p[|p| - 1] in s
    decreases |p|
  {
    if |p| > 1 {
      var q := p[..|p| - 1];
      assert IsPath(heap, roots, q);
      PathStays(heap, roots, s, q);
      var i := |p| - 2;
      assert q[|q| - 1] == p[i] && Points(heap[p[i]], p[i + 1]);
    }
  }

  /** Whatever is reachable lies in every closed set that contains the roots. */
  lemma ReachableIsLeast(heap: Heap, roots: set<Obj>, s: set<Obj>, x: Obj)
    requires Closed(heap, s) && roots <= s && Reachable(heap, roots, x)
    ensures x in s
  {
    var p :| IsPath(heap, roots, p) && p[|p| - 1] == x;
    PathStays(heap, roots, s, p);
  }

  lemma ReachStep(heap: Heap, roots: set<Obj>, o: Obj, x: Obj)
    requires Reachable(heap, roots, o) && o in heap && Points(heap[o], x)
    ensures Reachable(heap, roots, x)
  {
    var p :| IsPath(heap, roots, p) && p[|p| - 1] == o;
    assert IsPath(heap, roots, p + [x]);
    assert (p + [x])[|p + [x]| - 1] == x;
  }

  lemma RootsReachable(heap: Heap, roots: set<Obj>, x: Obj)
    requires x in roots
    ensures Reachable(heap, roots, x)
  {
    assert IsPath(heap, roots, [x]);
    assert [x][|[x]| - 1] == x;
  }

  /** The reachable objects, as a set. */
  ghost function ReachableSet(heap: Heap, roots: set<Obj>): (r: set<Obj>) {
    set x | x in heap && Reachable(heap, roots, x)
  }

  /** When nothing reachable is missing from the heap, the reachable objects form the least
      closed set that contains the roots. */
  lemma ReachableSetClosed(heap: Heap, roots: set<Obj>, s: set<Obj>)
    requires Closed(heap, s) && roots <= s && s <= heap.Keys
    ensures Closed(heap, ReachableSet(heap, roots))
    ensures roots <= ReachableSet(heap, roots) <= s
  {
    forall x | x in roots ensures x in ReachableSet(heap, roots) { RootsReachable(heap, roots, x); }
    forall x | Reachable(heap, roots, x) ensures x in s { ReachableIsLeast(heap, roots, s, x); }
    forall o, x | o in ReachableSet(heap, roots) && o in heap && Points(heap[o], x)
      ensures x in ReachableSet(heap, roots)
    {
      ReachStep(heap, roots, o, x);
    }
  }

  lemma {:induction false} PathKept(heap: Heap, heap': Heap, roots: set<Obj>, p: seq<Obj>)
    requires forall x :: Reachable(heap, roots, x) ==> x in heap'
    requires forall o :: o in heap' ==> o in heap && heap'[o] == heap[o]
    requires IsPath(heap, roots, p)
    ensures IsPath(heap', roots, p)
  {
    hide Points;
    forall i | 0 <= i < |p| - 1 ensures p[i] in heap' && Points(heap'[p[i]], p[i + 1]) {
      var o, x := p[i], p[i + 1];
      assert o in heap && Points(heap[o], x);
      var q := p[..i + 1];
      assert IsPath(heap, roots, q) && q[|q| - 1] == o;
      assert Reachable(heap, roots, o);
      assert o in heap' && heap'[o] == heap[o];
    }
  }

  lemma PathInLarger(heap: Heap, heap': Heap, roots: set<Obj>, p: seq<Obj>)
    requires forall o :: o in heap' ==> o in heap && heap'[o] == heap[o]
    requires IsPath(heap', roots, p)
    ensures IsPath(heap, roots, p)
  {
    hide Points;
    forall i | 0 <= i < |p| - 1 ensures p[i] in heap && Points(heap[p[i]], p[i + 1]) {
      var o, x := p[i], p[i + 1];
      assert o in heap' && Points(heap'[o], x);
      assert o in heap && heap'[o] == heap[o];
    }
  }

  /** Freeing what cannot be reached changes nothing about what can. */
  lemma SameReachable(heap: Heap, heap': Heap, roots: set<Obj>)
    requires forall x :: Reachable(heap, roots, x) ==> x in heap'
    requires forall o :: o in heap' ==> o in heap && heap'[o] == heap[o]
    ensures forall x :: Reachable(heap', roots, x) <==> Reachable(heap, roots, x)
    ensures ReachableSet(heap', roots) == ReachableSet(heap, roots)
  {
    forall x ensures Reachable(heap', roots, x) <==> Reachable(heap, roots, x) {
      if Reachable(heap, roots, x) {
        var p :| IsPath(heap, roots, p) && p[|p| - 1] == x;
        PathKept(heap, heap', roots, p);
      }
      if Reachable(heap', roots, x) {
        var p :| IsPath(heap', roots, p) && p[|p| - 1] == x;
        PathInLarger(heap, heap', roots, p);
      }
    }
  }
}
