/** The table of services: contexts at the residue of their handle in a table that doubles,
    and a sorted array of names searched by halving. */
module Handles {
  import opened Modular
  import opened Wrappers

  type Byte = x: int | 0 < x < 256 witness 1     // C strings hold no zero byte

  const DEFAULT_SLOT_SIZE := 4
  const HANDLES := 0x100_0000           // HANDLE_MASK + 1

  /** A context, by its identity, and the handle it was given. */
  datatype Context = Context(id: nat, handle: nat)

  datatype Name = Name(name: seq<Byte>, handle: nat)

  // Sizes.

  lemma {:induction false} Pow2Add(j: nat, k: nat)
    ensures Pow2(j + k) == Pow2(j) * Pow2(k)
  {
    if j > 0 {
      Pow2Add(j - 1, k);
      assert Pow2(j + k) == 2 * (Pow2(j - 1) * Pow2(k));
    }
  }

  lemma Pow24()
    ensures Pow2(24) == HANDLES
  {
    Pow2Add(12, 12);
    Pow2Add(6, 6);
    assert Pow2(6) == 64 by { Pow2Add(3, 3); assert Pow2(3) == 8; }
    assert Pow2(12) == 4096;
  }

  lemma ModMod(x: nat, m: nat, k: nat)
    requires m > 0 && k > 0
    ensures m * k > 0 && x % (m * k) % m == x % m
  {
    var q, r := x / (m * k), x % (m * k);
    assert m * k > 0 by { Positive(m, k); }
    assert x == q * (m * k) + r;
    assert q * (m * k) == q * k * m by { Rearrange(q, m, k); }
    ModShift(r, q * k, m);
  }

  lemma Positive(m: nat, k: nat)
    requires m > 0 && k > 0
    ensures m * k > 0
  {
  }

  lemma Rearrange(q: nat, m: nat, k: nat)
    ensures q * (m * k) == q * k * m
  {
  }

  // Names.

  /** The order of strcmp. */
  predicate Less(a: seq<Byte>, b: seq<Byte>) {
    if b == [] then false
    else if a == [] then true
    else a[0] < b[0] || (a[0] == b[0] && Less(a[1..], b[1..]))
  }

  lemma {:induction false} LessTotal(a: seq<Byte>, b: seq<Byte>)
    ensures Less(a, b) || a == b || Less(b, a)
    ensures !(Less(a, b) && Less(b, a)) && !Less(a, a)
  {
    if a != [] && b != [] {
      LessTotal(a[1..], b[1..]);
      LessTotal(a[1..], a[1..]);
      if a[0] == b[0] && a[1..] == b[1..] {
        assert a == [a[0]] + a[1..] && b == [b[0]] + b[1..];
      }
    } else if a != [] {
      LessTotal(a[1..], a[1..]);
    }
  }

  lemma {:induction false} LessTransitive(a: seq<Byte>, b: seq<Byte>, c: seq<Byte>)
    requires Less(a, b) && Less(b, c)
    ensures Less(a, c)
  {
    if a != [] && a[0] == b[0] == c[0] { LessTransitive(a[1..], b[1..], c[1..]); }
  }

  ghost predicate Sorted(names: seq<Name>) {
    forall i, j :: 0 <= i < j < |names| ==> Less(names[i].name, names[j].name)
  }

  function Without(names: seq<Name>, h: nat): seq<Name> {
    if names == [] then []
    else Without(names[..|names| - 1], h) + if names[|names| - 1].handle == h then [] else [names[|names| - 1]]
  }

  lemma WithoutNone(h: nat)
    ensures Without([], h) == []
  {
  }

  lemma WithoutNext(names: seq<Name>, i: nat, h: nat)
    requires i < |names|
    ensures Without(names[..i + 1], h) == Without(names[..i], h) + if names[i].handle == h then [] else [names[i]]
  {
    assert names[..i + 1][..i] == names[..i];
  }

  /** Exactly the names of the handle go, and the rest stay in order. */
  lemma {:induction false} WithoutIs(names: seq<Name>, h: nat)
    requires Sorted(names)
    ensures Sorted(Without(names, h))
    ensures forall n :: n in Without(names, h) <==> n in names && n.handle != h
  {
    if names != [] {
      var init, last := names[..|names| - 1], names[|names| - 1];
      WithoutIs(init, h);
      var w := Without(init, h);
      assert names == init + [last];
      forall n | n in w ensures Less(n.name, last.name) {
        var i :| 0 <= i < |init| && init[i] == n;
        assert names[i] == n;
      }
      forall i, j | 0 <= i < j < |w + [last]| ensures Less((w + [last])[i].name, (w + [last])[j].name) {
        if j == |w| { assert w[i] in w; }
      }
    }
  }

  /** A table of `Pow2(k)` slots, each empty or holding a context at the residue of its handle. */
  ghost predicate Placed(slot: seq<Option<Context>>, k: nat) {
    && 2 <= k <= 24 && |slot| == Pow2(k)
    && forall s :: 0 <= s < |slot| && slot[s].Some? ==> slot[s].value.handle % |slot| == s
  }

  /** The table as a map from handles to contexts. */
  ghost predicate Live(slot: seq<Option<Context>>, h: nat, id: nat)
    requires |slot| > 0
  {
    slot[h % |slot|] == Some(Context(id, h))
  }

  /** Residues for a smaller table are residues of residues. */
  lemma Coarser(k: nat, j: nat, x: nat)
    requires j <= k
    ensures x % Pow2(k) % Pow2(j) == x % Pow2(j)
  {
    Pow2Add(j, k - j);
    ModMod(x, Pow2(j), Pow2(k - j));
  }

  /** The harbor bits do not matter for the slot. */
  lemma HarborIgnored(index: nat, harbor: nat, k: nat)
    requires k <= 24
    ensures (index + harbor * HANDLES) % Pow2(k) == index % Pow2(k)
  {
    Pow24();
    Coarser(24, k, index + harbor * HANDLES);
    Coarser(24, k, index);
    ModShift(index, harbor, HANDLES);
  }

  /** A run of as many handles as there are slots meets every slot. */
  lemma MeetsEverySlot(start: nat, size: nat, s: nat) returns (i: nat)
    requires s < size
    ensures i < size && (i + start) % size == s
  {
    var q, r := start / size, start % size;
    assert start == q * size + r;
    if s >= r {
      i := s - r;
      Unique(i + start, size, q, s);
    } else {
      i := s + size - r;
      assert (q + 1) * size == q * size + size;
      Unique(i + start, size, q + 1, s);
    }
  }

  function Residue(h: nat, n: nat): (r: nat)
    requires n > 0
    ensures r < n
  {
    h % n
  }

  /** The slot of the `j`-th handle from `index` on. */
  function TriedSlot(size: nat, index: nat, j: nat): (s: nat)
    requires size > 0
    ensures s < size
  {
    Residue((j + index) % HANDLES, size)
  }

  /** `low` is the `i`-th handle from `index` on, and the first one whose slot is empty. */
  ghost predicate FirstFree(slot: seq<Option<Context>>, index: nat, i: nat, low: nat) {
    && i < |slot| && low == (i + index) % HANDLES
    && slot[TriedSlot(|slot|, index, i)] == None
    && forall j :: 0 <= j < i ==> slot[TriedSlot(|slot|, index, j)].Some?
  }

  predicate HasRoom(slot: seq<Option<Context>>) { exists s :: 0 <= s < |slot| && slot[s] == None }

  lemma RoomAt(slot: seq<Option<Context>>, s: nat)
    requires s < |slot| && slot[s] == None
    ensures HasRoom(slot)
  {
  }

  /** As many handles in a row as there are slots leave no slot out. */
  lemma NoRoom(slot: seq<Option<Context>>, k: nat, index: nat)
    requires |slot| > 0 && Placed(slot, k)
    requires forall j :: 0 <= j < |slot| ==> slot[TriedSlot(|slot|, index, j)].Some?
    ensures !HasRoom(slot)
  {
    Pow24();
    forall s | 0 <= s < |slot| ensures slot[s].Some? {
      var j := MeetsEverySlot(index, |slot|, s);
      Coarser(24, k, j + index);
      assert slot[TriedSlot(|slot|, index, j)].Some?;
    }
  }

  /** A residue of the doubled table is the old one, or that one a table further on. */
  lemma ResidueHalf(h: nat, n: nat)
    requires n > 0
    ensures Residue(h, n) == if Residue(h, 2 * n) < n then Residue(h, 2 * n) else Residue(h, 2 * n) - n
  {
    ModMod(h, n, 2);
    var r := h % (n * 2);
    if r < n { Unique(r, n, 0, r); } else { Unique(r, n, 1, r - n); }
  }

  // Handles in a row, counted without the wrap of the index.

  predicate Spaced(at: seq<nat>, size: nat) {
    forall k :: 0 < k < |at| ==> at[k - 1] < at[k] <= at[k - 1] + size
  }

  lemma SpacedMore(at: seq<nat>, size: nat, larger: nat)
    requires Spaced(at, size) && size <= larger
    ensures Spaced(at, larger)
  {
  }

  lemma {:induction false} FarApart(at: seq<nat>, size: nat, a: nat, b: nat)
    requires Spaced(at, size) && a < b < |at|
    ensures 0 < at[b] - at[a] <= (b - a) * size
    decreases b
  {
    if a < b - 1 {
      FarApart(at, size, a, b - 1);
      assert (b - a) * size == (b - 1 - a) * size + size;
    } else {
      assert (b - a) * size == size;
    }
  }

  lemma AFullTurn(x: nat, y: nat)
    requires x < y && x % HANDLES == y % HANDLES
    ensures y - x >= HANDLES
  {
  }

  /** The handles given out are at these places; the next place is that of the index. */
  ghost predicate Turns(given: seq<nat>, at: seq<nat>, next: nat, index: nat, size: nat) {
    && Spaced(at, size) && |at| == |given| && (at != [] ==> next == at[|at| - 1] + 1)
    && (forall k :: 0 <= k < |at| ==> given[k] % HANDLES == at[k] % HANDLES)
    && next % HANDLES == index % HANDLES
  }

  lemma TurnsStart(index: nat, size: nat)
    ensures Turns([], [], index, index, size)
  {
  }

  lemma TurnsGrow(given: seq<nat>, at: seq<nat>, next: nat, index: nat, size: nat, larger: nat)
    requires Turns(given, at, next, index, size) && size <= larger
    ensures Turns(given, at, next, index, larger)
  {
  }

  lemma TurnsMore(given: seq<nat>, at: seq<nat>, next: nat, index: nat, slot: seq<Option<Context>>, i: nat, handle: nat)
    requires Turns(given, at, next, index, |slot|) && FirstFree(slot, index, i, handle % HANDLES)
    ensures Turns(given + [handle], at + [next + i], next + i + 1, handle % HANDLES + 1, |slot|)
  {
    hide Residue;
    assert (next + i) % HANDLES == (index + i) % HANDLES;
  }

  lemma TurnsMean(given: seq<nat>, at: seq<nat>, next: nat, index: nat, size: nat)
    requires Turns(given, at, next, index, size)
    ensures forall a, b :: 0 <= a < b < |given| && given[a] == given[b] ==> (b - a) * size >= HANDLES
  {
    forall a, b | 0 <= a < b < |given| && given[a] == given[b] ensures (b - a) * size >= HANDLES {
      FarApart(at, size, a, b);
      AFullTurn(at[a], at[b]);
    }
  }

  lemma FirstFreeIs(slot: seq<Option<Context>>, index: nat, i: nat, low: nat)
    requires FirstFree(slot, index, i, low)
    ensures low < HANDLES && slot[Residue(low, |slot|)] == None
  {
  }

  datatype Op = Register(id: nat) | Retire(handle: nat)

  class HandleStorage {
    const harbor: nat
    var handleIndex: nat
    var slot: array<Option<Context>>
    var name: array<Name>
    var nameCount: nat
    ghost var order: nat

    ghost predicate Valid()
      reads this, slot, name
    {
      && harbor < 256 && handleIndex <= HANDLES
      && Placed(slot[..], order)
      && 0 < name.Length && nameCount <= name.Length && Sorted(name[..nameCount])
    }

    ghost function Names(): seq<Name>
      reads this, name
      requires nameCount <= name.Length
    {
      name[..nameCount]
    }

    constructor (harbor: nat)
      requires harbor < 256
      ensures Valid() && Names() == [] && fresh(slot) && fresh(name)
      ensures this.harbor == harbor && handleIndex == 1 && slot.Length == DEFAULT_SLOT_SIZE
      ensures forall s :: 0 <= s < slot.Length ==> slot[s] == None
    {
      this.harbor := harbor;
      handleIndex := 1;
      slot := new Option<Context>[DEFAULT_SLOT_SIZE](_ => None);
      name := new Name[2](_ => Name([], 0));
      nameCount := 0;
      order := 2;
      assert Pow2(2) == 4;
    }

    /** The context of a handle, if there is one. */
    method Grab(handle: nat) returns (r: Option<Context>)
      requires Valid()
      ensures r.Some? <==> exists id :: Live(slot[..], handle, id)
      ensures r.Some? ==> r.value.handle == handle && Live(slot[..], handle, r.value.id)
    {
      r := None;
      var c := slot[handle % slot.Length];
      if c.Some? && c.value.handle == handle {
        r := c;
        assert Live(slot[..], handle, c.value.id);
      }
    }

    /** Doubles the table. No two contexts can meet in a slot of the new one. */
    method Double()
      requires Valid() && order < 24 && forall s :: 0 <= s < slot.Length ==> slot[s].Some?
      modifies `slot, `order
      ensures Valid() && fresh(slot) && order == old(order) + 1 && slot.Length == 2 * old(slot.Length)
      ensures forall h, id :: Live(slot[..], h, id) <==> old(Live(slot[..], h, id))
      ensures HasRoom(slot[..])
    {
      hide Sorted, Residue;
      ghost var before := slot[..];
      var newSlot := Spread();
      slot := newSlot;
      order := order + 1;
      DoubledIs(before, newSlot[..], order - 1);
    }

    method Spread() returns (newSlot: array<Option<Context>>)
      requires Valid() && forall s :: 0 <= s < slot.Length ==> slot[s].Some?
      ensures fresh(newSlot) && Doubled(slot[..], newSlot[..])
    {
      hide Sorted, Residue, Placed, Spreading;
      PlacedFacts(slot[..], order);
      var n := slot.Length;
      newSlot := new Option<Context>[n * 2](_ => None);
      ghost var before := slot[..];
      SpreadStart(before, newSlot[..], order);
      var i := 0;
      while i < n
        modifies newSlot
        invariant 0 <= i <= n && slot[..] == before && Spreading(before, newSlot[..], i)
      {
        var hash := Residue(slot[i].value.handle, n * 2);
        ghost var after := newSlot[..];
        SpreadStep(before, after, i);
        newSlot[hash] := slot[i];
        assert newSlot[..] == after[hash := before[i]];
        i := i + 1;
      }
      SpreadEnd(before, newSlot[..]);
    }

    /** Tries the handles from the index on: the first one whose slot is empty. */
    method FindFree() returns (r: Option<nat>)
      requires Valid()
      ensures r.Some? ==> FirstFree(slot[..], handleIndex, r.value, (r.value + handleIndex) % HANDLES)
      ensures r.Some? <==> HasRoom(slot[..])
    {
      hide Sorted, Residue, TriedSlot, HasRoom;
      PlacedFacts(slot[..], order);
      r := None;
      var i := 0;
      while i < slot.Length
        invariant 0 <= i <= slot.Length
        invariant forall j :: 0 <= j < i ==> slot[TriedSlot(slot.Length, handleIndex, j)].Some?
      {
        var s := TriedSlot(slot.Length, handleIndex, i);
        if slot[s] == None {
          RoomAt(slot[..], s);
          return Some(i);
        }
        i := i + 1;
      }
      NoRoom(slot[..], order, handleIndex);
    }

    lemma SizeLimit(k: nat)
      requires Placed(slot[..], k) && slot.Length * 2 > HANDLES
      ensures slot.Length == HANDLES
    {
      PlacedFacts(slot[..], k);
      if k < 24 {
        Pow24();
        Pow2Add(k + 1, 23 - k);
      }
    }

    /** The next handle whose slot is empty, in a table doubled once if it is full; none when the
        table cannot grow any more. */
    method FreeHandle() returns (low: Option<nat>, ghost i: nat)
      requires Valid()
      modifies `slot, `order
      ensures Valid() && (slot == old(slot) || fresh(slot))
      ensures forall h, x :: Live(slot[..], h, x) <==> old(Live(slot[..], h, x))
      ensures low.Some? ==> FirstFree(slot[..], handleIndex, i, low.value)
      ensures if old(HasRoom(slot[..])) || low == None then slot == old(slot) else slot.Length == 2 * old(slot.Length)
      ensures low == None <==> old(slot.Length) == HANDLES && !old(HasRoom(slot[..]))
    {
      hide Sorted, Placed, Residue, Live, FirstFree;
      PlacedFacts(slot[..], order);
      i := 0;
      var k := FindFree();
      if k == None {
        if slot.Length * 2 - 1 > HANDLES - 1 {
          SizeLimit(order);
          return None, 0;
        }
        Double();
        k := FindFree();
        assert k.Some?;
      }
      i := k.value;
      low := Some((k.value + handleIndex) % HANDLES);
    }

    /** Gives a context the next free handle, doubling the table when it is full. Nothing is
        registered when the table cannot grow any more. The handle is the first one from the index
        on, which skips `skipped`, and the index goes behind it. */
    method Register(id: nat) returns (r: Option<nat>, ghost skipped: nat)
      requires Valid()
      modifies `handleIndex, `slot, `order, slot
      ensures Valid() && Names() == old(Names()) && (slot == old(slot) || fresh(slot))
      ensures r.Some? ==> r.value / HANDLES == harbor && Live(slot[..], r.value, id)
      ensures r.Some? ==> forall x :: !old(Live(slot[..], r.value, x))
      ensures r.Some? ==> forall h, x :: h != r.value ==> (Live(slot[..], h, x) <==> old(Live(slot[..], h, x)))
      ensures r.Some? ==>
        && handleIndex == r.value % HANDLES + 1
        && slot.Length > 0
        && FirstFree(slot[..][r.value % slot.Length := None], old(handleIndex), skipped, r.value % HANDLES)
      ensures if old(HasRoom(slot[..])) || r == None then slot == old(slot) else slot.Length == 2 * old(slot.Length)
      ensures r == None <==> old(slot.Length) == HANDLES && !old(HasRoom(slot[..]))
      ensures r == None ==> slot[..] == old(slot[..]) && handleIndex == old(handleIndex)
    {
      hide Sorted, Placed, Residue, Live, FirstFree, HasRoom;
      var low;
      low, skipped := FreeHandle();
      if low == None { return None, 0; }
      ghost var grown := slot[..];
      FirstFreeIs(grown, handleIndex, skipped, low.value);
      PutFacts(grown, order, low.value, harbor, id);
      var handle := low.value + harbor * HANDLES;
      var hash := Residue(low.value, slot.Length);
      slot[hash] := Some(Context(id, handle));
      assert slot[..] == grown[hash := Some(Context(id, handle))];
      assert slot[..][hash := None] == grown;
      handleIndex := low.value + 1;
      r := Some(handle);
    }

    // Names.

    /** Where a name is, or where it would go. */
    method Search(key: seq<Byte>) returns (found: bool, at: nat)
      requires Valid()
      ensures at <= nameCount && (found ==> at < nameCount && name[at].name == key)
      ensures !found ==> (forall i :: 0 <= i < at ==> Less(name[i].name, key)) && forall i :: at <= i < nameCount ==> Less(key, name[i].name)
    {
      hide Placed, Less;
      var begin, end := 0, nameCount - 1;
      while begin <= end
        invariant 0 <= begin <= end + 1 <= nameCount
        invariant forall i :: 0 <= i < begin ==> Less(name[i].name, key)
        invariant forall i :: end < i < nameCount ==> Less(key, name[i].name)
        decreases end - begin
      {
        var mid := (begin + end) / 2;
        var n := name[mid];
        if n.name == key { return true, mid; }
        LessTotal(n.name, key);
        if Less(n.name, key) {
          SmallerBelow(mid, key);
          begin := mid + 1;
        } else {
          GreaterAbove(mid, key);
          end := mid - 1;
        }
      }
      found, at := false, begin;
    }

    lemma SmallerBelow(mid: nat, key: seq<Byte>)
      requires Valid() && mid < nameCount && Less(name[mid].name, key)
      ensures forall i :: 0 <= i <= mid ==> Less(name[i].name, key)
    {
      hide Placed, Less;
      forall i | 0 <= i <= mid ensures Less(name[i].name, key) {
        if i < mid {
          assert Less(name[..nameCount][i].name, name[..nameCount][mid].name);
          LessTransitive(name[i].name, name[mid].name, key);
        }
      }
    }

    lemma GreaterAbove(mid: nat, key: seq<Byte>)
      requires Valid() && mid < nameCount && Less(key, name[mid].name)
      ensures forall i :: mid <= i < nameCount ==> Less(key, name[i].name)
    {
      hide Placed, Less;
      forall i | mid <= i < nameCount ensures Less(key, name[i].name) {
        if i > mid {
          assert Less(name[..nameCount][mid].name, name[..nameCount][i].name);
          LessTransitive(key, name[mid].name, name[i].name);
        }
      }
    }

    /** The handle of a name, or 0. */
    method FindName(key: seq<Byte>) returns (handle: nat)
      requires Valid()
      ensures if exists n :: n in Names() && n.name == key then Name(key, handle) in Names() else handle == 0
    {
      hide Placed, Less;
      handle := 0;
      var found, at := Search(key);
      if found {
        assert Names()[at] == name[at];
        return name[at].handle;
      }
      NotThere(key, at);
    }

    lemma NotThere(key: seq<Byte>, at: nat)
      requires Valid() && at <= nameCount
      requires (forall i :: 0 <= i < at ==> Less(name[i].name, key)) && forall i :: at <= i < nameCount ==> Less(key, name[i].name)
      ensures forall n :: n in Names() ==> n.name != key
    {
      hide Placed, Less;
      LessTotal(key, key);
      forall n | n in Names() ensures n.name != key {
        var i :| 0 <= i < nameCount && name[..nameCount][i] == n;
        assert name[i] == n;
      }
    }

    /** The names in a larger array, with a gap. */
    method Widen(before: nat)
      requires before <= nameCount == name.Length && 0 < name.Length
      modifies `name
      ensures fresh(name) && nameCount < name.Length
      ensures forall j :: 0 <= j < before ==> name[j] == old(name[..])[j]
      ensures forall j :: before < j <= nameCount ==> name[j] == old(name[..])[j - 1]
    {
      var wider := new Name[name.Length * 2](_ => Name([], 0));
      ghost var all := name[..];
      var i := 0;
      while i < before
        modifies wider
        invariant 0 <= i <= before && forall j :: 0 <= j < i ==> wider[j] == all[j]
      {
        wider[i] := name[i];
        i := i + 1;
      }
      while i < nameCount
        modifies wider
        invariant before <= i <= nameCount
        invariant forall j :: 0 <= j < before ==> wider[j] == all[j]
        invariant forall j :: before < j <= i ==> wider[j] == all[j - 1]
      {
        wider[i + 1] := name[i];
        i := i + 1;
      }
      name := wider;
    }

    /** The names moved up by one from a position on. */
    method ShiftUp(before: nat)
      requires before <= nameCount < name.Length
      modifies name
      ensures forall j :: 0 <= j < before ==> name[j] == old(name[..])[j]
      ensures forall j :: before < j <= nameCount ==> name[j] == old(name[..])[j - 1]
    {
      ghost var all := name[..];
      var i := nameCount;
      while i > before
        invariant before <= i <= nameCount
        invariant forall j :: 0 <= j < i ==> name[j] == all[j]
        invariant forall j :: i < j <= nameCount ==> name[j] == all[j - 1]
      {
        name[i] := name[i - 1];
        i := i - 1;
      }
    }

    /** Puts a name in before position `before`, in a larger array when this one is full. */
    method InsertNameBefore(n: Name, before: nat)
      requires nameCount <= name.Length && 0 < name.Length && before <= nameCount
      modifies `name, `nameCount, name
      ensures nameCount == old(nameCount) + 1 <= name.Length && (name == old(name) || fresh(name))
      ensures Names() == old(Names())[..before] + [n] + old(Names())[before..]
    {
      ghost var all := Names();
      if nameCount >= name.Length { Widen(before); } else { ShiftUp(before); }
      name[before] := n;
      nameCount := nameCount + 1;
      Inserted(all, before, n, name[..nameCount]);
    }

    lemma Inserted(all: seq<Name>, before: nat, n: Name, names: seq<Name>)
      requires before <= |all| && |names| == |all| + 1 && names[before] == n
      requires forall j :: 0 <= j < before ==> names[j] == all[j]
      requires forall j :: before < j <= |all| ==> names[j] == all[j - 1]
      ensures names == all[..before] + [n] + all[before..]
    {
    }

    /** Gives a name to a handle, unless the name is taken. */
    method NameHandle(handle: nat, key: seq<Byte>) returns (ok: bool)
      requires Valid()
      modifies `name, `nameCount, name
      ensures Valid() && ok == old(forall n :: n in Names() ==> n.name != key)
      ensures if ok then forall n :: n in Names() <==> n in old(Names()) || n == Name(key, handle) else Names() == old(Names())
    {
      hide Placed, Less;
      var found, at := Search(key);
      ok := !found;
      if found {
        assert Names()[at].name == key;
        return;
      }
      NotThere(key, at);
      ghost var all := Names();
      SortedInsert(all, at, Name(key, handle));
      InsertNameBefore(Name(key, handle), at);
    }

    lemma SortedInsert(all: seq<Name>, at: nat, n: Name)
      requires Sorted(all) && at <= |all|
      requires (forall i :: 0 <= i < at ==> Less(all[i].name, n.name)) && forall i :: at <= i < |all| ==> Less(n.name, all[i].name)
      ensures Sorted(all[..at] + [n] + all[at..])
      ensures forall x :: x in all[..at] + [n] + all[at..] <==> x in all || x == n
    {
      hide Less;
      var names := all[..at] + [n] + all[at..];
      forall i, j | 0 <= i < j < |names| ensures Less(names[i].name, names[j].name) {
        assert names[j] == if j < at then all[j] else if j == at then n else all[j - 1];
        assert names[i] == if i < at then all[i] else if i == at then n else all[i - 1];
      }
      assert all == all[..at] + all[at..];
    }

    /** Retires a handle: its context leaves the table and its names, and no other, leave the array. */
    method Retire(handle: nat) returns (r: Option<Context>)
      requires Valid()
      modifies slot, name, `nameCount
      ensures Valid()
      ensures r.Some? <==> old(exists id :: Live(slot[..], handle, id))
      ensures r.Some? ==> r.value.handle == handle && old(Live(slot[..], handle, r.value.id))
      ensures forall h, id :: Live(slot[..], h, id) <==> old(Live(slot[..], h, id)) && h != handle
      ensures if r == None then Names() == old(Names()) && slot[..] == old(slot[..])
              else forall n :: n in Names() <==> n in old(Names()) && n.handle != handle
    {
      hide Less, Placed, Live, Sorted, Without;
      PlacedFacts(slot[..], order);
      ghost var before := slot[..];
      WithoutIs(Names(), handle);
      var hash := handle % slot.Length;
      RetireFacts(before, order, handle);
      r := None;
      var c := slot[hash];
      if c.Some? && c.value.handle == handle {
        r := c;
        slot[hash] := None;
        assert slot[..] == before[hash := None];
        CompactNames(handle);
      }
    }

    method CompactNames(handle: nat)
      requires nameCount <= name.Length
      modifies name, `nameCount
      ensures nameCount <= name.Length && Names() == Without(old(Names()), handle)
    {
      hide Without;
      ghost var all := Names();
      WithoutNone(handle);
      var i, j := 0, 0;
      var n := nameCount;
      while i < n
        modifies name
        invariant 0 <= j <= i <= n
        invariant name[..j] == Without(all[..i], handle)
        invariant forall k :: i <= k < n ==> name[k] == all[k]
      {
        WithoutNext(all, i, handle);
        if name[i].handle == handle {
          i := i + 1;
          continue;
        }
        ghost var kept := name[..j];
        if i != j { name[j] := name[i]; }
        assert name[..j + 1] == kept + [all[i]];
        j := j + 1;
        i := i + 1;
      }
      assert all[..n] == all;
      nameCount := j;
    }

    /** Any sequence of registrations and retirements: the handles given out, in order. A handle is
        given out again only after so many others that the index has gone through all of them. */
    method Run(ops: seq<Op>) returns (given: seq<nat>)
      requires Valid()
      modifies `handleIndex, `slot, `order, slot, name, `nameCount
      ensures Valid() && slot.Length >= old(slot.Length)
      ensures forall a, b :: 0 <= a < b < |given| && given[a] == given[b] ==> (b - a) * slot.Length >= HANDLES
    {
      hide *;
      given := [];
      ghost var at: seq<nat> := [];
      ghost var next: nat := handleIndex;
      TurnsStart(handleIndex, slot.Length);
      for n := 0 to |ops|
        invariant Valid() && (slot == old(slot) || fresh(slot)) && slot.Length >= old(slot.Length)
        invariant Turns(given, at, next, handleIndex, slot.Length)
      {
        match ops[n]
        case Retire(h) => var _ := Retire(h);
        case Register(id) =>
          ghost var before, length := handleIndex, slot.Length;
          var r, skipped := Register(id);
          TurnsGrow(given, at, next, before, length, slot.Length);
          if r.Some? {
            TurnsMore(given, at, next, before, slot[..][r.value % slot.Length := None], skipped, r.value);
            at, given, next := at + [next + skipped], given + [r.value], next + skipped + 1;
          }
      }
      TurnsMean(given, at, next, handleIndex, slot.Length);
    }
  }

  /** Each context of the old table is at its residue of the new one, and there is nothing else. */
  ghost predicate Doubled(before: seq<Option<Context>>, after: seq<Option<Context>>) {
    var n := |before|;
    && n > 0 && |after| == 2 * n && (forall j :: 0 <= j < n ==> before[j].Some?)
    && (forall s :: 0 <= s < 2 * n && after[s].Some? ==>
          Residue(after[s].value.handle, 2 * n) == s && after[s] == before[Residue(after[s].value.handle, n)])
    && (forall j :: 0 <= j < n ==> after[Residue(before[j].value.handle, 2 * n)] == before[j])
  }

  /** The first `i` contexts are in the new table, and nothing else. */
  ghost predicate Spreading(before: seq<Option<Context>>, after: seq<Option<Context>>, i: nat) {
    var n := |before|;
    && n > 0 && i <= n && |after| == 2 * n
    && (forall j :: 0 <= j < n ==> before[j].Some? && Residue(before[j].value.handle, n) == j)
    && (forall s :: 0 <= s < 2 * n && after[s].Some? ==>
          var h := after[s].value.handle;
          Residue(h, 2 * n) == s && Residue(h, n) < i && after[s] == before[Residue(h, n)])
    && (forall j :: 0 <= j < i ==> after[Residue(before[j].value.handle, 2 * n)] == before[j])
  }

  lemma SpreadStart(before: seq<Option<Context>>, after: seq<Option<Context>>, k: nat)
    requires Placed(before, k) && (forall j :: 0 <= j < |before| ==> before[j].Some?)
    requires |after| == 2 * |before| && forall s :: 0 <= s < |after| ==> after[s] == None
    ensures Spreading(before, after, 0)
  {
    hide Residue;
    AtResidue(before, k);
  }

  /** The slot of the next context is still empty. */
  lemma SpreadStep(before: seq<Option<Context>>, after: seq<Option<Context>>, i: nat)
    requires Spreading(before, after, i) && i < |before|
    ensures
      var hash := Residue(before[i].value.handle, 2 * |before|);
      after[hash] == None && Spreading(before, after[hash := before[i]], i + 1)
  {
    hide Residue;
    var n := |before|;
    var h := before[i].value.handle;
    var hash := Residue(h, 2 * n);
    ResidueHalf(h, n);
    if after[hash].Some? { ResidueHalf(after[hash].value.handle, n); }
  }

  lemma SpreadEnd(before: seq<Option<Context>>, after: seq<Option<Context>>)
    requires Spreading(before, after, |before|)
    ensures Doubled(before, after)
  {
    hide Residue;
  }

  lemma AtResidue(slot: seq<Option<Context>>, k: nat)
    requires Placed(slot, k)
    ensures |slot| > 0 && forall s :: 0 <= s < |slot| && slot[s].Some? ==> Residue(slot[s].value.handle, |slot|) == s
  {
  }

  lemma DoubledIs(before: seq<Option<Context>>, after: seq<Option<Context>>, k: nat)
    requires Placed(before, k) && k < 24 && Doubled(before, after)
    ensures Placed(after, k + 1)
    ensures forall h, id :: Live(after, h, id) <==> Live(before, h, id)
    ensures HasRoom(after)
  {
    var n := |before|;
    forall s | 0 <= s < |after| && after[s].Some? ensures after[s].value.handle % |after| == s {
      assert Residue(after[s].value.handle, 2 * n) == s;
    }
    forall h: nat, id: nat ensures Live(after, h, id) <==> Live(before, h, id) {
      ResidueHalf(h, n);
      assert Residue(h, n) == h % n && Residue(h, 2 * n) == h % |after|;
    }
    assert after[0] == None || after[n] == None by {
      if after[0].Some? && after[n].Some? {
        ResidueHalf(after[0].value.handle, n);
        ResidueHalf(after[n].value.handle, n);
      }
    }
  }

  lemma PlacedFacts(slot: seq<Option<Context>>, k: nat)
    requires Placed(slot, k)
    ensures 2 <= k <= 24 && |slot| == Pow2(k) && 4 <= |slot| <= HANDLES && (k == 24 <==> |slot| == HANDLES)
  {
    Pow24();
    Pow2Add(k, 24 - k);
    Pow2Add(2, k - 2);
    if k < 24 { assert Pow2(24 - k) == 2 * Pow2(23 - k); }
  }

  /** Emptying the slot of a handle. */
  lemma RetireFacts(slot: seq<Option<Context>>, k: nat, handle: nat)
    requires Placed(slot, k) && |slot| > 0
    ensures
      var c := slot[handle % |slot|];
      if c.Some? && c.value.handle == handle then
        var slot' := slot[handle % |slot| := None];
        && Placed(slot', k) && Live(slot, handle, c.value.id)
        && forall h, id :: Live(slot', h, id) <==> Live(slot, h, id) && h != handle
      else forall id :: !Live(slot, handle, id)
  {
  }

  /** Putting a context with a fresh handle into its empty slot. */
  lemma PutFacts(slot: seq<Option<Context>>, k: nat, low: nat, harbor: nat, id: nat)
    requires Placed(slot, k) && low < HANDLES && harbor < 256
    requires |slot| > 0 && slot[Residue(low, |slot|)] == None
    ensures
      var h := low + harbor * HANDLES;
      var hash := Residue(low, |slot|);
      var slot' := slot[hash := Some(Context(id, h))];
      && h / HANDLES == harbor && h % HANDLES == low && h % |slot| == hash && Placed(slot', k)
      && (forall x :: !Live(slot, h, x)) && Live(slot', h, id)
      && forall g, x :: g != h ==> (Live(slot', g, x) <==> Live(slot, g, x))
  {
    var h := low + harbor * HANDLES;
    HarborIgnored(low, harbor, k);
  }

  // The handle 0, which the storage means to keep back.

  /** The handle 0 is the next one if and only if the index has come round: every handle from the
      index up to the last is tried and taken, and the first slot is empty. */
  lemma ZeroExactly(slot: seq<Option<Context>>, index: nat)
    requires 0 < index <= HANDLES && |slot| > 0
    ensures
      (exists i: nat :: FirstFree(slot, index, i, 0)) <==>
        && HANDLES - index < |slot| && slot[0] == None
        && forall h :: index <= h < HANDLES ==> slot[Residue(h, |slot|)].Some?
  {
    hide Residue;
    var n := HANDLES - index;
    assert Residue(0, |slot|) == 0 by { ZeroResidue(|slot|); }
    if n < |slot| && slot[0] == None && forall h :: index <= h < HANDLES ==> slot[Residue(h, |slot|)].Some? {
      assert TriedSlot(|slot|, index, n) == 0;
      forall j | 0 <= j < n ensures slot[TriedSlot(|slot|, index, j)].Some? { assert (j + index) % HANDLES == j + index; }
      assert FirstFree(slot, index, n, 0);
    }
    if exists i: nat :: FirstFree(slot, index, i, 0) {
      var i: nat :| FirstFree(slot, index, i, 0);
      AtLeastToEnd(index, i);
      forall h | index <= h < HANDLES ensures slot[Residue(h, |slot|)].Some? {
        var j := h - index;
        assert slot[TriedSlot(|slot|, index, j)].Some?;
      }
      assert slot[TriedSlot(|slot|, index, i)] == None;
      assert TriedSlot(|slot|, index, n) == TriedSlot(|slot|, index, i) == 0;
    }
  }

  lemma AtLeastToEnd(index: nat, i: nat)
    requires 0 < index <= HANDLES && (i + index) % HANDLES == 0
    ensures i >= HANDLES - index
  {
  }

  lemma ZeroResidue(n: nat)
    requires n > 0
    ensures Residue(0, n) == 0
  {
  }

  /** It happens: registering and retiring one context after the other for as many times as there
      are handles gives the next one the handle 0, in a storage without a harbor. */
  method GivesZero() returns (handle: nat)
    ensures handle == 0
  {
    var s := new HandleStorage(0);
    for n := 1 to HANDLES
      invariant fresh(s) && fresh(s.slot) && fresh(s.name)
      invariant s.Valid() && s.handleIndex == n && s.harbor == 0
      invariant forall h, x :: !Live(s.slot[..], h, x)
    {
      hide Sorted, Placed, Residue, Live;
      var r := RegisterInEmpty(s, 0);
      var _ := s.Retire(r);
    }
    handle := RegisterInEmpty(s, 1);
  }

  method RegisterInEmpty(s: HandleStorage, id: nat) returns (handle: nat)
    requires s.Valid() && s.harbor == 0 && forall h, x :: !Live(s.slot[..], h, x)
    modifies s`handleIndex, s`slot, s`order, s.slot
    ensures s.Valid() && s.slot == old(s.slot) && handle == old(s.handleIndex) % HANDLES && s.handleIndex == handle + 1
    ensures forall h, x :: Live(s.slot[..], h, x) ==> h == handle
  {
    hide Sorted, Placed, Residue, Live, HasRoom;
    PlacedFacts(s.slot[..], s.order);
    EmptyTable(s.slot[..], s.order);
    ghost var table := s.slot[..];
    var r, skipped := s.Register(id);
    handle := r.value;
    OnlyOne(s.slot[..], s.order, handle);
    FirstInEmpty(s.slot[..][handle % s.slot.Length := None], old(s.handleIndex), skipped, handle % HANDLES);
  }

  lemma EmptyTable(slot: seq<Option<Context>>, k: nat)
    requires Placed(slot, k) && |slot| > 0 && forall h, x :: !Live(slot, h, x)
    ensures HasRoom(slot) && forall s :: 0 <= s < |slot| ==> slot[s] == None
  {
    forall s | 0 <= s < |slot| ensures slot[s] == None {
      if slot[s].Some? { assert Live(slot, slot[s].value.handle, slot[s].value.id); }
    }
    assert slot[0] == None;
  }

  lemma OnlyOne(slot: seq<Option<Context>>, k: nat, handle: nat)
    requires Placed(slot, k) && |slot| > 0 && forall h, x :: Live(slot, h, x) ==> h == handle
    ensures forall s :: 0 <= s < |slot| && s != handle % |slot| ==> slot[s] == None
  {
    forall s | 0 <= s < |slot| && s != handle % |slot| ensures slot[s] == None {
      if slot[s].Some? { assert Live(slot, slot[s].value.handle, slot[s].value.id); }
    }
  }

  lemma FirstInEmpty(slot: seq<Option<Context>>, index: nat, i: nat, low: nat)
    requires FirstFree(slot, index, i, low) && forall s :: 0 <= s < |slot| ==> slot[s] == None
    ensures i == 0 && low == index % HANDLES
  {
    assert slot[TriedSlot(|slot|, index, 0)] == None;
  }
}
