/** The read-only tables shared between services: an array part, and a hash part that is
    exactly full, built in two passes. */
module ShareData {
  import opened Modular
  import opened Wrappers

  /** Keys of a table. A table as a key is identified by a number. */
  datatype Key = IntKey(i: int) | StrKey(s: seq<bv8>) | TableKey(id: nat)

  const INT_MAX := 0x7fff_ffff

  /** A key as a node stores it: integers of the source table have 64 bits, those of a node 32; a
      table, of which Lua gives no string, is stored as the empty one. */
  function Narrow(k: Key): Key {
    match k
    case IntKey(i) => IntKey((i + 0x8000_0000) % 0x1_0000_0000 - 0x8000_0000)
    case StrKey(_) => k
    case TableKey(_) => StrKey([])
  }

  /** A string, or an integer of 32 bits. */
  predicate Fits(k: Key) { !k.TableKey? && (k.IntKey? ==> -0x8000_0000 <= k.i <= INT_MAX) }

  lemma NarrowFits(k: Key)
    ensures Fits(Narrow(k)) && (Narrow(k) == k <==> Fits(k))
  {
  }

  /** Values are copied without a look inside; a nested table is a reference to its own conversion. */
  datatype Value = Integer(d: int) | Real(n: real) | Text(s: seq<bv8>) | Boolean(b: bool) | Nested(table: nat)

  datatype Node = Node(key: Key, keyhash: bv32, value: Option<Value>, next: int, nocolliding: bool)

  function CalcHash(s: seq<bv8>, h: bv32, l1: int, step: int): bv32
    requires step > 0 && l1 <= |s|
    decreases l1
  {
    if l1 < step then h
    else CalcHash(s, h ^ ((h << 5) + (h >> 2) + s[l1 - 1] as bv32), l1 - step, step)
  }

  function Hash(k: Key): bv32 {
    match k
    case IntKey(i) => (i % 0x1_0000_0000) as bv32
    case StrKey(s) => CalcHash(s, (|s| % 0x1_0000_0000) as bv32, |s|, |s| / 32 + 1)
    case TableKey(_) => 0
  }

  function Main(k: Key, size: nat): (r: nat)
    requires size > 0
    ensures r < size
  {
    Hash(k) as nat % size
  }

  predicate InArray(k: Key, sizearray: nat) { k.IntKey? && 0 < k.i <= sizearray }

  predicate Taken(n: Node) { n.value.Some? }

  function After(chain: seq<nat>, i: nat): int { if i + 1 < |chain| then chain[i + 1] else -1 }

  /** The `i`-th link of the chain of position `s`. */
  ghost predicate LinkOk(nodes: seq<Node>, s: nat, c: nat, next: int) {
    c < |nodes| && Taken(nodes[c]) && Main(nodes[c].key, |nodes|) == s && nodes[c].next == next
  }

  /** Each chain starts at its main position and links the nodes whose keys belong there. */
  ghost predicate ChainOk(nodes: seq<Node>, chain: seq<nat>, s: nat) {
    && (chain != [] ==> chain[0] == s)
    && (forall i, j :: 0 <= i < j < |chain| ==> chain[i] != chain[j])
    && (forall i :: 0 <= i < |chain| ==> LinkOk(nodes, s, chain[i], After(chain, i)))
  }

  /** A node carries its key's hash and value, sits in its key's chain, and says so when it is
      alone there. */
  ghost predicate NodeOk(n: Node, chains: seq<seq<nat>>, src: map<Key, Value>, s: nat) {
    s < |chains| && n.keyhash == Hash(n.key)
    && n.key in src && n.value == Some(src[n.key])
    && s in chains[Main(n.key, |chains|)]
    && (n.nocolliding ==> chains[s] == [s])
  }

  ghost predicate NodesOk(nodes: seq<Node>, chains: seq<seq<nat>>, src: map<Key, Value>) {
    forall s :: 0 <= s < |nodes| && Taken(nodes[s]) ==> NodeOk(nodes[s], chains, src, s)
  }

  ghost predicate DistinctKeys(nodes: seq<Node>) {
    forall s, t :: 0 <= s < t < |nodes| && Taken(nodes[s]) && Taken(nodes[t]) ==> nodes[s].key != nodes[t].key
  }

  ghost predicate ChainsOk(nodes: seq<Node>, chains: seq<seq<nat>>) {
    |chains| == |nodes| && forall s :: 0 <= s < |nodes| ==> ChainOk(nodes, chains[s], s)
  }

  ghost predicate Linked(nodes: seq<Node>, chains: seq<seq<nat>>, src: map<Key, Value>) {
    ChainsOk(nodes, chains) && NodesOk(nodes, chains, src) && DistinctKeys(nodes)
  }

  predicate Holds(nodes: seq<Node>, k: Key) { exists s :: 0 <= s < |nodes| && Taken(nodes[s]) && nodes[s].key == k }

  lemma OtherChain(nodes: seq<Node>, nodes': seq<Node>, chain: seq<nat>, s: nat, m: nat, e: nat)
    requires ChainOk(nodes, chain, s) && |nodes'| == |nodes|
    requires forall t :: 0 <= t < |nodes| && t != m && t != e ==> nodes'[t] == nodes[t]
    requires forall i :: 0 <= i < |chain| ==> chain[i] != m && chain[i] != e
    ensures ChainOk(nodes', chain, s)
  {
    hide Main;
  }

  /** Putting a key into its own, empty position. */
  lemma PutHome(nodes: seq<Node>, chains: seq<seq<nat>>, src: map<Key, Value>, k: Key)
    requires Linked(nodes, chains, src) && k in src && |nodes| > 0 && !Holds(nodes, k)
    requires !Taken(nodes[Main(k, |nodes|)])
    ensures
      var m := Main(k, |nodes|);
      Linked(nodes[m := Node(k, Hash(k), Some(src[k]), -1, true)], chains[m := [m]], src)
  {
    hide Main, Hash;
    var m := Main(k, |nodes|);
    var nodes', chains' := nodes[m := Node(k, Hash(k), Some(src[k]), -1, true)], chains[m := [m]];
    assert chains[m] == [] by {
      assert chains[m] != [] ==> ChainOk(nodes, chains[m], m);
    }
    forall s | 0 <= s < |nodes'| ensures ChainOk(nodes', chains'[s], s) {
      if s != m {
        assert ChainOk(nodes, chains[s], s);
        OtherChain(nodes, nodes', chains[s], s, m, m);
      } else {
        assert chains'[s] == [m] && nodes'[m].key == k;
      }
    }
  }

  lemma LongerChain(nodes: seq<Node>, nodes': seq<Node>, chain: seq<nat>, m: nat, e: nat, k: Key)
    requires ChainOk(nodes, chain, m) && chain != [] && |nodes'| == |nodes| && m < |nodes| && e < |nodes| && m != e
    requires forall t :: 0 <= t < |nodes| && t != m && t != e ==> nodes'[t] == nodes[t]
    requires !Taken(nodes[e]) && nodes'[m] == nodes[m].(next := e, nocolliding := false)
    requires Taken(nodes'[e]) && nodes'[e].key == k && Main(k, |nodes|) == m && nodes'[e].next == nodes[m].next
    ensures ChainOk(nodes', [m, e] + chain[1..], m)
  {
    hide Main;
    var chain' := [m, e] + chain[1..];
    assert LinkOk(nodes, m, chain[0], After(chain, 0));
    forall i | 2 <= i < |chain'| ensures chain'[i] == chain[i - 1] && After(chain', i) == After(chain, i - 1) {}
    forall i | 0 <= i < |chain| ensures chain[i] != e { assert LinkOk(nodes, m, chain[i], After(chain, i)); }
    forall i | 0 <= i < |chain'| ensures LinkOk(nodes', m, chain'[i], After(chain', i)) {
      if i >= 2 {
        assert LinkOk(nodes, m, chain[i - 1], After(chain, i - 1));
      } else if i == 1 {
        assert After(chain', 1) == After(chain, 0);
      }
    }
  }

  /** The nodes and the chains after the key `k` went to the empty slot `e`. */
  function Inserted(nodes: seq<Node>, k: Key, v: Value, e: nat): (r: seq<Node>)
    requires e < |nodes|
    ensures |r| == |nodes|
  {
    var m := Main(k, |nodes|);
    nodes[m := nodes[m].(next := e, nocolliding := false)][e := Node(k, Hash(k), Some(v), nodes[m].next, false)]
  }

  ghost function InsertedChains(chains: seq<seq<nat>>, m: nat, e: nat): (r: seq<seq<nat>>)
    requires m < |chains| && chains[m] != []
    ensures |r| == |chains| && forall t :: 0 <= t < |r| && chains[t] != [] ==> r[t] != []
  {
    chains[m := [m, e] + chains[m][1..]]
  }

  /** Putting a key whose position is taken into an empty slot, next in the chain after the
      first node. */
  lemma PutAway(nodes: seq<Node>, chains: seq<seq<nat>>, src: map<Key, Value>, k: Key, e: nat)
    requires |chains| == |nodes| && Linked(nodes, chains, src) && k in src && !Holds(nodes, k)
    requires e < |nodes| && !Taken(nodes[e]) && chains[Main(k, |nodes|)] != []
    ensures
      var m := Main(k, |nodes|);
      && Taken(nodes[m]) && m != e && |chains| == |nodes|
      && Linked(Inserted(nodes, k, src[k], e), InsertedChains(chains, m, e), src)
  {
    hide Main, Hash, NodesOk, DistinctKeys;
    var m := Main(k, |nodes|);
    assert ChainOk(nodes, chains[m], m);
    assert chains[m][0] == m;
    assert ChainOk(nodes, chains[e], e);
    assert chains[e] == [];
    PutAwayChains(nodes, chains, k, src[k], e);
    PutAwayNodes(nodes, chains, src, k, e);
    PutAwayKeys(nodes, k, src[k], e);
  }

  lemma PutAwayChains(nodes: seq<Node>, chains: seq<seq<nat>>, k: Key, v: Value, e: nat)
    requires ChainsOk(nodes, chains) && e < |nodes| && !Taken(nodes[e])
    requires chains[Main(k, |nodes|)] != [] && Main(k, |nodes|) != e && chains[Main(k, |nodes|)][0] == Main(k, |nodes|)
    ensures ChainsOk(Inserted(nodes, k, v, e), InsertedChains(chains, Main(k, |nodes|), e))
  {
    hide Main, Hash;
    var m := Main(k, |nodes|);
    var nodes', chains' := Inserted(nodes, k, v, e), InsertedChains(chains, m, e);
    assert ChainOk(nodes, chains[m], m);
    forall s | 0 <= s < |nodes'| ensures ChainOk(nodes', chains'[s], s) {
      assert ChainOk(nodes, chains[s], s);
      if s != m {
        forall i | 0 <= i < |chains[s]| ensures chains[s][i] != m && chains[s][i] != e {
          assert Main(nodes[chains[s][i]].key, |nodes|) == s;
          assert Main(nodes[chains[m][0]].key, |nodes|) == m;
        }
        OtherChain(nodes, nodes', chains[s], s, m, e);
      } else {
        LongerChain(nodes, nodes', chains[m], m, e, k);
      }
    }
  }

  lemma PutAwayNodes(nodes: seq<Node>, chains: seq<seq<nat>>, src: map<Key, Value>, k: Key, e: nat)
    requires |chains| == |nodes| && NodesOk(nodes, chains, src) && k in src
    requires e < |nodes| && !Taken(nodes[e]) && chains[e] == []
    requires var m := Main(k, |nodes|); Taken(nodes[m]) && m != e && chains[m] != [] && chains[m][0] == m
    ensures NodesOk(Inserted(nodes, k, src[k], e), InsertedChains(chains, Main(k, |nodes|), e), src)
  {
    hide Main, Hash;
    var m := Main(k, |nodes|);
    var nodes', chains' := Inserted(nodes, k, src[k], e), InsertedChains(chains, m, e);
    assert NodeOk(nodes[m], chains, src, m);
    assert e == chains'[m][1];
    forall s | 0 <= s < |nodes'| && Taken(nodes'[s]) ensures NodeOk(nodes'[s], chains', src, s) {
      if s != e {
        assert NodeOk(nodes[s], chains, src, s);
        var h := Main(nodes[s].key, |nodes|);
        if h == m { StillThere(chains[m], m, e, s); }
      }
    }
  }

  lemma StillThere(chain: seq<nat>, m: nat, e: nat, s: nat)
    requires chain != [] && chain[0] == m && s in chain
    ensures s in [m, e] + chain[1..]
  {
    assert chain == [chain[0]] + chain[1..];
  }

  lemma PutAwayKeys(nodes: seq<Node>, k: Key, v: Value, e: nat)
    requires DistinctKeys(nodes) && !Holds(nodes, k) && e < |nodes| && Main(k, |nodes|) != e && Taken(nodes[Main(k, |nodes|)])
    ensures DistinctKeys(Inserted(nodes, k, v, e))
  {
    hide Main, Hash;
    var nodes' := Inserted(nodes, k, v, e);
    forall s | 0 <= s < |nodes| && s != e ensures nodes'[s].key == nodes[s].key && (Taken(nodes'[s]) <==> Taken(nodes[s])) {}
  }

  predicate Blank(k: Key) { k.TableKey? || k == StrKey([]) }

  /** Two keys look the same to a node exactly if they are integers a multiple of 2^32 apart, or
      both tables or the empty string. */
  lemma NarrowMeets(a: Key, b: Key)
    ensures Narrow(a) == Narrow(b) <==>
      || a == b
      || (a.IntKey? && b.IntKey? && (a.i - b.i) % 0x1_0000_0000 == 0)
      || (Blank(a) && Blank(b))
  {
    if a.IntKey? && b.IntKey? { SameResidue(a.i + 0x8000_0000, b.i + 0x8000_0000, 0x1_0000_0000); }
  }

  // The source table, as the sequence in which it is enumerated.

  type Entries = seq<(Key, Value)>

  ghost predicate Distinct(entries: Entries) {
    forall i, j :: 0 <= i < j < |entries| ==> entries[i].0 != entries[j].0
  }

  /** No key is a table, and no integer key needs more than 32 bits. */
  ghost predicate AllFit(entries: Entries) { forall i :: 0 <= i < |entries| ==> Fits(entries[i].0) }

  /** The entries that do not go to the array part. */
  ghost function HashPart(entries: Entries, sizearray: nat): map<Key, Value> {
    if entries == [] then map[]
    else
      var (k, v) := entries[|entries| - 1];
      var rest := HashPart(entries[..|entries| - 1], sizearray);
      if InArray(k, sizearray) then rest else rest[k := v]
  }

  lemma {:induction false} HashPartKeys(entries: Entries, sizearray: nat)
    requires Distinct(entries)
    ensures
      var src := HashPart(entries, sizearray);
      && (forall i :: 0 <= i < |entries| && !InArray(entries[i].0, sizearray) ==>
            entries[i].0 in src && src[entries[i].0] == entries[i].1)
      && (forall k :: k in src ==> !InArray(k, sizearray) && exists i :: 0 <= i < |entries| && entries[i].0 == k)
  {
    if entries != [] {
      var init := entries[..|entries| - 1];
      HashPartKeys(init, sizearray);
      assert forall i :: 0 <= i < |init| ==> init[i] == entries[i];
      forall k | k in HashPart(entries, sizearray) ensures exists i :: 0 <= i < |entries| && entries[i].0 == k {
        if k in HashPart(init, sizearray) {
          var i :| 0 <= i < |init| && init[i].0 == k;
          assert entries[i].0 == k;
        } else {
          assert entries[|entries| - 1].0 == k;
        }
      }
    }
  }

  /** How many slots the hash part needs. */
  method CountSize(entries: Entries, sizearray: nat) returns (n: nat)
    requires Distinct(entries)
    ensures n == |HashPart(entries, sizearray)|
  {
    n := 0;
    for j := 0 to |entries|
      invariant n == |HashPart(entries[..j], sizearray)|
    {
      assert entries[..j + 1][..j] == entries[..j];
      HashPartKeys(entries[..j], sizearray);
      assert entries[j].0 !in HashPart(entries[..j], sizearray);
      n := n + 1;
      if InArray(entries[j].0, sizearray) { n := n - 1; }
    }
    assert entries[..|entries|] == entries;
  }

  /** The array part after the entries seen so far. */
  ghost predicate ArrayPart(arr: seq<Option<Value>>, entries: Entries, sizearray: nat) {
    && |arr| == sizearray
    && (forall i :: 0 <= i < |entries| && InArray(entries[i].0, sizearray) ==> arr[entries[i].0.i - 1] == Some(entries[i].1))
    && (forall p :: 0 <= p < sizearray && arr[p].Some? ==> IsEntry(entries, p, arr[p].value))
  }

  ghost predicate IsEntry(entries: Entries, p: nat, v: Value) {
    exists i :: 0 <= i < |entries| && entries[i] == (IntKey(p + 1), v)
  }

  lemma ArrayPartStep(arr: seq<Option<Value>>, entries: Entries, sizearray: nat, e: (Key, Value))
    requires ArrayPart(arr, entries, sizearray) && Distinct(entries + [e])
    ensures
      if InArray(e.0, sizearray) then ArrayPart(arr[e.0.i - 1 := Some(e.1)], entries + [e], sizearray)
      else ArrayPart(arr, entries + [e], sizearray)
  {
    hide IsEntry;
    var entries' := entries + [e];
    var arr' := if InArray(e.0, sizearray) then arr[e.0.i - 1 := Some(e.1)] else arr;
    LastIsNew(entries, e);
    hide Distinct;
    forall i | 0 <= i < |entries'| && InArray(entries'[i].0, sizearray)
      ensures arr'[entries'[i].0.i - 1] == Some(entries'[i].1)
    {
      if i < |entries| { assert entries'[i] == entries[i] && entries[i].0 != e.0; } else { assert entries'[i] == e; }
    }
    forall p | 0 <= p < sizearray && arr'[p].Some? ensures IsEntry(entries', p, arr'[p].value) {
      if InArray(e.0, sizearray) && p == e.0.i - 1 { NowThere(entries, e); } else { WasThere(entries, p, arr[p].value, e); }
    }
  }

  lemma LastIsNew(entries: Entries, e: (Key, Value))
    requires Distinct(entries + [e])
    ensures forall i :: 0 <= i < |entries| ==> entries[i].0 != e.0
  {
    var entries' := entries + [e];
    forall i | 0 <= i < |entries| ensures entries[i].0 != e.0 {
      assert entries'[i].0 != entries'[|entries|].0;
    }
  }

  lemma WasThere(entries: Entries, p: nat, v: Value, e: (Key, Value))
    requires IsEntry(entries, p, v)
    ensures IsEntry(entries + [e], p, v)
  {
    var i :| 0 <= i < |entries| && entries[i] == (IntKey(p + 1), v);
    assert (entries + [e])[i] == (IntKey(p + 1), v);
  }

  lemma NowThere(entries: Entries, e: (Key, Value))
    requires e.0.IntKey? && e.0.i > 0
    ensures IsEntry(entries + [e], e.0.i - 1, e.1)
  {
    assert (entries + [e])[|entries|] == e;
  }

  ghost predicate AllHome(nodes: seq<Node>) {
    forall s :: 0 <= s < |nodes| && Taken(nodes[s]) ==> Main(nodes[s].key, |nodes|) == s
  }

  ghost predicate Seen(entries: Entries, j: nat, k: Key) { exists i :: 0 <= i < j && i < |entries| && entries[i].0 == k }

  /** The first `j` entries have been through the first pass. */
  ghost predicate FirstPass(nodes: seq<Node>, chains: seq<seq<nat>>, entries: Entries, sizearray: nat, j: nat) {
    && |nodes| > 0 && Linked(nodes, chains, HashPart(entries, sizearray)) && AllHome(nodes)
    && (forall s :: 0 <= s < |nodes| && Taken(nodes[s]) ==> Seen(entries, j, nodes[s].key))
    && (forall i :: 0 <= i < j && i < |entries| && !InArray(entries[i].0, sizearray) ==> chains[Main(entries[i].0, |nodes|)] != [])
  }

  /** A key of the hash part that the first pass comes to. */
  lemma FirstPassStep(nodes: seq<Node>, chains: seq<seq<nat>>, entries: Entries, sizearray: nat, j: nat)
    requires Distinct(entries) && j < |entries| && FirstPass(nodes, chains, entries, sizearray, j)
    ensures
      var (k, v) := entries[j];
      var m := Main(k, |nodes|);
      if InArray(k, sizearray) || Taken(nodes[m]) then FirstPass(nodes, chains, entries, sizearray, j + 1)
      else
        && |chains| == |nodes|
        && FirstPass(nodes[m := Node(k, Hash(k), Some(v), -1, true)], chains[m := [m]], entries, sizearray, j + 1)
  {
    hide Main, Hash, ChainOk;
    var (k, v) := entries[j];
    var m := Main(k, |nodes|);
    var src := HashPart(entries, sizearray);
    HashPartKeys(entries, sizearray);
    SeenMore(entries, j);
    if !InArray(k, sizearray) {
      if Taken(nodes[m]) {
        assert m in chains[m];
      } else {
        assert !Seen(entries, j, k);
        assert !Holds(nodes, k);
        PutHome(nodes, chains, src, k);
      }
    }
  }

  lemma SeenMore(entries: Entries, j: nat)
    requires j < |entries|
    ensures Seen(entries, j + 1, entries[j].0)
    ensures forall k :: Seen(entries, j, k) ==> Seen(entries, j + 1, k)
  {
    forall k | Seen(entries, j, k) ensures Seen(entries, j + 1, k) {
      var i :| 0 <= i < j && i < |entries| && entries[i].0 == k;
      assert i < j + 1;
    }
  }

  lemma FirstPassStart(nodes: seq<Node>, entries: Entries, sizearray: nat)
    requires |nodes| > 0 && forall s :: 0 <= s < |nodes| ==> !Taken(nodes[s])
    ensures FirstPass(nodes, seq(|nodes|, _ => []), entries, sizearray, 0)
  {
  }

  /** First pass: array entries go to their place, and a key whose main position is still free
      takes it. Keys are narrowed before they are looked at. */
  method FillNoColliding(hash: array<Node>, arr: array<Option<Value>>, entries: Entries)
    returns (ghost chains: seq<seq<nat>>)
    requires Distinct(entries) && hash.Length > 0
    requires forall s :: 0 <= s < hash.Length ==> !Taken(hash[s]) && Fits(hash[s].key)
    requires forall p :: 0 <= p < arr.Length ==> arr[p] == None
    modifies hash, arr
    ensures forall s :: 0 <= s < hash.Length ==> Fits(hash[s].key)
    ensures AllFit(entries) ==> FirstPass(hash[..], chains, entries, arr.Length, |entries|)
    ensures AllFit(entries) ==> ArrayPart(arr[..], entries, arr.Length)
  {
    hide Main, Hash, FirstPass, ArrayPart, Taken, Narrow, Fits;
    chains := seq(hash.Length, _ => []);
    FirstPassStart(hash[..], entries, arr.Length);
    ArrayPartStart(arr[..]);
    for j := 0 to |entries|
      invariant forall s :: 0 <= s < hash.Length ==> Fits(hash[s].key)
      invariant AllFit(entries) ==> FirstPass(hash[..], chains, entries, arr.Length, j)
      invariant AllFit(entries) ==> ArrayPart(arr[..], entries[..j], arr.Length)
    {
      var (k0, v) := entries[j];
      var k := Narrow(k0);
      NarrowFits(k0);
      assert entries[..j + 1] == entries[..j] + [(k0, v)];
      if AllFit(entries) {
        ArrayPartStep(arr[..], entries[..j], arr.Length, (k, v));
        FirstPassStep(hash[..], chains, entries, arr.Length, j);
      }
      ghost var nodes, cells := hash[..], arr[..];
      if InArray(k, arr.Length) {
        arr[k.i - 1] := Some(v);
        assert arr[..] == cells[k.i - 1 := Some(v)] && hash[..] == nodes;
      } else {
        var m := Main(k, hash.Length);
        if !Taken(hash[m]) {
          if AllFit(entries) { chains := chains[m := [m]]; }
          hash[m] := Node(k, Hash(k), Some(v), -1, true);
          assert hash[..] == nodes[m := Node(k, Hash(k), Some(v), -1, true)];
        }
        assert arr[..] == cells;
      }
    }
    assert entries[..|entries|] == entries;
  }

  lemma ArrayPartStart(arr: seq<Option<Value>>)
    requires forall p :: 0 <= p < |arr| ==> arr[p] == None
    ensures ArrayPart(arr, [], |arr|)
  {
  }

  /** The first `j` entries have been through the second pass too: their keys are in. */
  ghost predicate SecondPass(nodes: seq<Node>, chains: seq<seq<nat>>, entries: Entries, sizearray: nat, j: nat) {
    && |nodes| > 0 && Linked(nodes, chains, HashPart(entries, sizearray))
    && SeenOrHome(nodes, entries, j)
    && (forall i :: 0 <= i < |entries| && !InArray(entries[i].0, sizearray) ==> chains[Main(entries[i].0, |nodes|)] != [])
    && HeldUpTo(nodes, entries, sizearray, j)
  }

  ghost predicate SeenOrHome(nodes: seq<Node>, entries: Entries, j: nat) {
    forall s :: 0 <= s < |nodes| && Taken(nodes[s]) ==> Seen(entries, j, nodes[s].key) || Main(nodes[s].key, |nodes|) == s
  }

  ghost predicate HeldUpTo(nodes: seq<Node>, entries: Entries, sizearray: nat, j: nat) {
    forall i :: 0 <= i < j && i < |entries| && !InArray(entries[i].0, sizearray) ==> Holds(nodes, entries[i].0)
  }

  lemma SecondPassStart(nodes: seq<Node>, chains: seq<seq<nat>>, entries: Entries, sizearray: nat)
    requires FirstPass(nodes, chains, entries, sizearray, |entries|)
    ensures SecondPass(nodes, chains, entries, sizearray, 0)
  {
    hide Main, Linked;
  }

  /** A key that the second pass comes to is at its main position, or not in yet. */
  lemma SecondPassSkip(nodes: seq<Node>, chains: seq<seq<nat>>, entries: Entries, sizearray: nat, j: nat)
    requires Distinct(entries) && j < |entries| && SecondPass(nodes, chains, entries, sizearray, j)
    ensures
      var k := entries[j].0;
      var m := Main(k, |nodes|);
      if InArray(k, sizearray) then SecondPass(nodes, chains, entries, sizearray, j + 1)
      else
        && Taken(nodes[m])
        && (nodes[m].key == k ==> SecondPass(nodes, chains, entries, sizearray, j + 1))
        && (nodes[m].key != k ==> !Holds(nodes, k))
  {
    hide Main, Hash, Linked, HashPart, InArray, HeldUpTo;
    var k := entries[j].0;
    var m := Main(k, |nodes|);
    SeenMore(entries, j);
    if InArray(k, sizearray) {
      HeldNext(nodes, entries, sizearray, j);
    } else {
      MainTaken(nodes, chains, HashPart(entries, sizearray), m);
      NotSeen(entries, j);
      if nodes[m].key == k { HeldNext(nodes, entries, sizearray, j); }
    }
  }

  lemma NotSeen(entries: Entries, j: nat)
    requires Distinct(entries) && j < |entries|
    ensures !Seen(entries, j, entries[j].0)
  {
  }

  lemma HeldNext(nodes: seq<Node>, entries: Entries, sizearray: nat, j: nat)
    requires HeldUpTo(nodes, entries, sizearray, j) && j < |entries|
    requires InArray(entries[j].0, sizearray) || Holds(nodes, entries[j].0)
    ensures HeldUpTo(nodes, entries, sizearray, j + 1)
  {
  }

  lemma MainTaken(nodes: seq<Node>, chains: seq<seq<nat>>, src: map<Key, Value>, m: nat)
    requires Linked(nodes, chains, src) && m < |nodes| && chains[m] != []
    ensures Taken(nodes[m])
  {
    hide Main;
    assert ChainOk(nodes, chains[m], m);
    assert LinkOk(nodes, m, chains[m][0], After(chains[m], 0));
  }

  lemma SecondPassPut(nodes: seq<Node>, chains: seq<seq<nat>>, entries: Entries, sizearray: nat, j: nat, e: nat)
    requires Distinct(entries) && j < |entries| && SecondPass(nodes, chains, entries, sizearray, j)
    requires !InArray(entries[j].0, sizearray) && !Holds(nodes, entries[j].0) && e < |nodes| && !Taken(nodes[e])
    ensures
      var (k, v) := entries[j];
      var m := Main(k, |nodes|);
      && Taken(nodes[m]) && m != e && |chains| == |nodes| && chains[m] != []
      && SecondPass(Inserted(nodes, k, v, e), InsertedChains(chains, m, e), entries, sizearray, j + 1)
  {
    assert |chains| == |nodes| && Linked(nodes, chains, HashPart(entries, sizearray));
    hide Main, Hash, ChainOk, Linked, HashPart, Holds, Seen, Inserted, InsertedChains, SeenOrHome, HeldUpTo, InArray, Taken;
    var (k, v) := entries[j];
    HashPartKeys(entries, sizearray);
    PutAway(nodes, chains, HashPart(entries, sizearray), k, e);
    InsertedSeen(nodes, entries, j, e);
    InsertedHolds(nodes, entries, sizearray, j, e);
  }

  lemma InsertedSeen(nodes: seq<Node>, entries: Entries, j: nat, e: nat)
    requires j < |entries| && e < |nodes| && SeenOrHome(nodes, entries, j) && Taken(nodes[Main(entries[j].0, |nodes|)])
    ensures SeenOrHome(Inserted(nodes, entries[j].0, entries[j].1, e), entries, j + 1)
  {
    hide Main, Hash, Seen;
    SeenMore(entries, j);
  }

  lemma InsertedHolds(nodes: seq<Node>, entries: Entries, sizearray: nat, j: nat, e: nat)
    requires j < |entries| && e < |nodes| && !Taken(nodes[e]) && HeldUpTo(nodes, entries, sizearray, j)
    ensures HeldUpTo(Inserted(nodes, entries[j].0, entries[j].1, e), entries, sizearray, j + 1)
  {
    hide Main, Hash;
    var (k, v) := entries[j];
    var nodes' := Inserted(nodes, k, v, e);
    forall x | Holds(nodes, x) ensures Holds(nodes', x) {
      var s :| 0 <= s < |nodes| && Taken(nodes[s]) && nodes[s].key == x;
      assert nodes'[s].key == x;
    }
    assert nodes'[e].key == k;
  }

  lemma {:induction false} KeySetSize(nodes: seq<Node>)
    requires forall s, t :: 0 <= s < t < |nodes| ==> nodes[s].key != nodes[t].key
    ensures |set s | 0 <= s < |nodes| :: nodes[s].key| == |nodes|
  {
    var keys := set s | 0 <= s < |nodes| :: nodes[s].key;
    if nodes == [] {
      assert keys == {};
    } else {
      var last := nodes[|nodes| - 1].key;
      var init := nodes[..|nodes| - 1];
      KeySetSize(init);
      var keys0 := set s | 0 <= s < |init| :: init[s].key;
      assert keys == keys0 + {last} by {
        forall k | k in keys ensures k in keys0 + {last} {
          var s :| 0 <= s < |nodes| && nodes[s].key == k;
          if s < |init| { assert init[s].key == k; }
        }
        forall k | k in keys0 ensures k in keys {
          var s :| 0 <= s < |init| && init[s].key == k;
          assert nodes[s].key == k;
        }
      }
      assert last !in keys0;
    }
  }

  lemma SubsetOfSize(a: set<Key>, b: set<Key>)
    requires a <= b && |a| == |b|
    ensures a == b
  {
    if !(b <= a) {
      var x :| x in b && x !in a;
      SubsetCard(a, b - {x});
    }
  }

  lemma {:induction false} SubsetCard<T>(a: set<T>, b: set<T>)
    requires a <= b
    ensures |a| <= |b|
    decreases |a|
  {
    if a != {} {
      var x :| x in a;
      SubsetCard(a - {x}, b - {x});
    }
  }

  /** There is room for a key that is not in: otherwise the slots would hold all the keys. */
  lemma RoomLeft(nodes: seq<Node>, src: map<Key, Value>, k: Key)
    requires |nodes| == |src| && k in src
    requires forall s :: 0 <= s < |nodes| ==> Taken(nodes[s]) && nodes[s].key in src
    requires forall s, t :: 0 <= s < t < |nodes| ==> nodes[s].key != nodes[t].key
    ensures Holds(nodes, k)
  {
    KeySetSize(nodes);
    var keys := set s | 0 <= s < |nodes| :: nodes[s].key;
    assert |src.Keys| == |src|;
    SubsetOfSize(keys, src.Keys);
    assert k in keys;
    var s :| 0 <= s < |nodes| && nodes[s].key == k;
  }

  lemma AllFull(nodes: seq<Node>, chains: seq<seq<nat>>, entries: Entries, sizearray: nat, j: nat)
    requires Distinct(entries) && |nodes| == |HashPart(entries, sizearray)|
    requires SecondPass(nodes, chains, entries, sizearray, j) && j < |entries| && !InArray(entries[j].0, sizearray)
    requires forall s :: 0 <= s < |nodes| ==> Taken(nodes[s])
    ensures Holds(nodes, entries[j].0)
  {
    hide Main, Hash, ChainOk, HashPart, Holds;
    HashPartKeys(entries, sizearray);
    RoomLeft(nodes, HashPart(entries, sizearray), entries[j].0);
  }

  /** Second pass: each key that lost its main position to another takes an empty slot. The pass
      stops when there is none, which happens to no table whose keys fit. */
  method FillColliding(hash: array<Node>, sizearray: nat, entries: Entries, ghost before: seq<seq<nat>>)
    returns (ghost chains: seq<seq<nat>>)
    requires Distinct(entries) && hash.Length == |HashPart(entries, sizearray)| > 0
    requires AllFit(entries) ==> FirstPass(hash[..], before, entries, sizearray, |entries|)
    requires forall s :: 0 <= s < hash.Length ==> Fits(hash[s].key)
    modifies hash
    ensures forall s :: 0 <= s < hash.Length ==> Fits(hash[s].key)
    ensures AllFit(entries) ==> SecondPass(hash[..], chains, entries, sizearray, |entries|)
  {
    hide Main, Hash, FirstPass, SecondPass, Linked, HashPart, InArray, Narrow, Fits;
    chains := before;
    if AllFit(entries) { SecondPassStart(hash[..], chains, entries, sizearray); }
    for j := 0 to |entries|
      invariant forall s :: 0 <= s < hash.Length ==> Fits(hash[s].key)
      invariant AllFit(entries) ==> SecondPass(hash[..], chains, entries, sizearray, j)
    {
      var (k0, v) := entries[j];
      var k := Narrow(k0);
      NarrowFits(k0);
      if AllFit(entries) { SecondPassSkip(hash[..], chains, entries, sizearray, j); }
      if !InArray(k, sizearray) {
        var m := Main(k, hash.Length);
        if hash[m].key != k {
          var e := FindEmpty(hash, chains, sizearray, entries, j);
          if e == hash.Length { return; }
          ghost var nodes := hash[..];
          if AllFit(entries) {
            SecondPassPut(nodes, chains, entries, sizearray, j, e);
            chains := InsertedChains(chains, m, e);
          }
          var next := hash[m].next;
          hash[m] := hash[m].(next := e, nocolliding := false);
          hash[e] := Node(k, Hash(k), Some(v), next, false);
          assert hash[..] == Inserted(nodes, k, v, e);
        }
      }
    }
  }

  /** The first empty slot. There is one as long as a key that fits is missing. */
  method FindEmpty(hash: array<Node>, ghost chains: seq<seq<nat>>, ghost sizearray: nat, entries: Entries, j: nat) returns (e: nat)
    requires Distinct(entries) && hash.Length == |HashPart(entries, sizearray)| > 0 && j < |entries|
    ensures e <= hash.Length && (e < hash.Length ==> !Taken(hash[e]))
    ensures SecondPass(hash[..], chains, entries, sizearray, j) ==>
              InArray(entries[j].0, sizearray) || Holds(hash[..], entries[j].0) || e < hash.Length
  {
    hide SecondPass, HashPart, Holds, InArray;
    e := 0;
    while e < hash.Length && Taken(hash[e])
      invariant e <= hash.Length && forall s :: 0 <= s < e ==> Taken(hash[s])
    {
      e := e + 1;
    }
    if
      && e == hash.Length && SecondPass(hash[..], chains, entries, sizearray, j)
      && !InArray(entries[j].0, sizearray) && !Holds(hash[..], entries[j].0)
    {
      AllFull(hash[..], chains, entries, sizearray, j);
    }
  }

  // The finished table.

  /** The value of a key in the source table. */
  function Find(entries: Entries, k: Key): Option<Value> {
    if entries == [] then None
    else if entries[|entries| - 1].0 == k then Some(entries[|entries| - 1].1)
    else Find(entries[..|entries| - 1], k)
  }

  lemma {:induction false} FindIs(entries: Entries, k: Key)
    requires Distinct(entries)
    ensures forall i :: 0 <= i < |entries| && entries[i].0 == k ==> Find(entries, k) == Some(entries[i].1)
    ensures Find(entries, k).Some? ==> exists i :: 0 <= i < |entries| && entries[i] == (k, Find(entries, k).value)
  {
    if entries != [] {
      var init := entries[..|entries| - 1];
      FindIs(init, k);
      assert forall i :: 0 <= i < |init| ==> init[i] == entries[i];
      if entries[|entries| - 1].0 == k {
        assert entries[|entries| - 1] == (k, Find(entries, k).value);
      } else if Find(init, k).Some? {
        var i :| 0 <= i < |init| && init[i] == (k, Find(init, k).value);
        assert entries[i] == (k, Find(entries, k).value);
      }
    }
  }

  /** The hash part is exactly full. */
  ghost predicate Full(nodes: seq<Node>) { forall s :: 0 <= s < |nodes| ==> Taken(nodes[s]) }

  /** With as many slots as keys and every key in, no slot is empty. */
  lemma EverySlotTaken(nodes: seq<Node>, src: map<Key, Value>)
    requires |nodes| == |src| && forall k :: k in src ==> Holds(nodes, k)
    ensures Full(nodes)
  {
    var taken := set s | 0 <= s < |nodes| && Taken(nodes[s]);
    var all := Below(|nodes|);
    var keys := set s | s in taken :: nodes[s].key;
    forall k | k in src.Keys ensures k in keys {
      var s :| 0 <= s < |nodes| && Taken(nodes[s]) && nodes[s].key == k;
      assert s in taken;
    }
    SubsetCard(src.Keys, keys);
    ImageCard(taken, nodes);
    assert |src.Keys| == |src|;
    if s :| 0 <= s < |nodes| && !Taken(nodes[s]) {
      assert taken <= all - {s};
      SubsetCard(taken, all - {s});
      assert false;
    }
  }

  ghost function Below(n: nat): (r: set<int>)
    ensures |r| == n && forall s :: s in r <==> 0 <= s < n
  {
    if n == 0 then {} else Below(n - 1) + {n - 1}
  }

  lemma {:induction false} ImageCard(slots: set<int>, nodes: seq<Node>)
    requires forall s :: s in slots ==> 0 <= s < |nodes|
    ensures |set s | s in slots :: nodes[s].key| <= |slots|
    decreases |slots|
  {
    var keys := set s | s in slots :: nodes[s].key;
    if x :| x in slots {
      var rest := set s | s in slots - {x} :: nodes[s].key;
      ImageCard(slots - {x}, nodes);
      forall k | k in keys ensures k in rest + {nodes[x].key} {
        var s :| s in slots && nodes[s].key == k;
        assert s == x || s in slots - {x};
      }
      assert keys <= rest + {nodes[x].key};
      SubsetCard(keys, rest + {nodes[x].key});
    } else {
      assert keys == {};
    }
  }

  /** What lookups raise for a key that is neither a number nor a string. */
  datatype KeyError = InvalidKey

  class ConfTable {
    const arr: array<Option<Value>>
    const hash: array<Node>
    ghost const source: Entries
    ghost const chains: seq<seq<nat>>

    ghost predicate Valid()
      reads arr, hash
    {
      && Distinct(source) && AllFit(source) && arr.Length <= INT_MAX && ArrayPart(arr[..], source, arr.Length)
      && hash.Length == |HashPart(source, arr.Length)| && Full(hash[..])
      && (hash.Length > 0 ==> SecondPass(hash[..], chains, source, arr.Length, |source|))
    }

    /** What conversion guarantees: the table is right if all keys fit, and stores 32-bit keys. */
    ghost predicate Built()
      reads arr, hash
    {
      && Distinct(source) && arr.Length <= INT_MAX
      && (forall s :: 0 <= s < hash.Length ==> Fits(hash[s].key))
      && (AllFit(source) ==> Valid())
    }

    /** Converts a table given by its entries and the length of its array part, an int. */
    constructor (entries: Entries, sizearray: nat)
      requires Distinct(entries) && sizearray <= INT_MAX
      ensures Built() && source == entries && arr.Length == sizearray
    {
      var cells := new Option<Value>[sizearray](_ => None);
      var sizehash := CountSize(entries, sizearray);
      var nodes := new Node[sizehash](_ => Node(IntKey(0), 0, None, -1, false));
      ghost var links := [];
      if sizehash > 0 {
        links := FillNoColliding(nodes, cells, entries);
        links := FillColliding(nodes, sizearray, entries, links);
        if AllFit(entries) { AllIn(nodes[..], links, entries, sizearray); }
      } else {
        FillArray(cells, entries);
      }
      arr, hash, source, chains := cells, nodes, entries, links;
    }

    /** The chain a walk from slot `n` follows, and where it enters it. */
    lemma Start(k: Key, n: nat) returns (chain: seq<nat>, i: nat)
      requires Valid() && hash.Length > 0 && n == Main(k, hash.Length)
      ensures i < |chain| && chain[i] == n && ChainOf(chain)
      ensures Holds(hash[..], k) ==> exists p :: i <= p < |chain| && chain[p] < hash.Length && hash[chain[p]].key == k
    {
      hide Main, Hash, ArrayPart, HashPart;
      var nodes := hash[..];
      assert ChainsOk(nodes, chains) && Taken(nodes[n]);
      if chains[n] != [] {
        assert ChainOk(nodes, chains[n], n);
        chain, i := chains[n], 0;
        if Holds(nodes, k) {
          var s :| 0 <= s < |nodes| && Taken(nodes[s]) && nodes[s].key == k;
          assert NodeOk(nodes[s], chains, HashPart(source, arr.Length), s);
          var p :| 0 <= p < |chain| && chain[p] == s;
        }
      } else {
        assert NodeOk(nodes[n], chains, HashPart(source, arr.Length), n);
        var h := Main(nodes[n].key, |nodes|);
        chain := chains[h];
        var j :| 0 <= j < |chain| && chain[j] == n;
        i := j;
        assert ChainOk(nodes, chain, h);
        assert !Holds(nodes, k) by { NoChainNoKey(k, n); }
      }
    }

    lemma NoChainNoKey(k: Key, n: nat)
      requires Valid() && hash.Length > 0 && n == Main(k, hash.Length) && |chains| == hash.Length && chains[n] == []
      ensures !Holds(hash[..], k)
    {
      hide Main, Hash, ArrayPart, HashPart;
      var nodes := hash[..];
      forall s | 0 <= s < |nodes| && Taken(nodes[s]) ensures nodes[s].key != k {
        assert NodeOk(nodes[s], chains, HashPart(source, arr.Length), s);
      }
    }

    ghost predicate ChainOf(chain: seq<nat>)
      reads hash
    {
      hash.Length > 0 && exists h: nat :: ChainOk(hash[..], chain, h)
    }

    lemma LinkOf(chain: seq<nat>, i: nat)
      requires ChainOf(chain) && i < |chain|
      ensures chain[i] < hash.Length && Taken(hash[chain[i]]) && hash[chain[i]].next == After(chain, i)
      ensures forall p :: 0 <= p < |chain| ==> chain[p] < hash.Length
    {
      hide Main;
      var h: nat :| ChainOk(hash[..], chain, h);
      assert LinkOk(hash[..], h, chain[i], After(chain, i));
      forall p | 0 <= p < |chain| ensures chain[p] < hash.Length { assert LinkOk(hash[..], h, chain[p], After(chain, p)); }
    }

    lemma HashIsRight(n: nat)
      requires Valid() && n < hash.Length
      ensures hash[n].keyhash == Hash(hash[n].key)
    {
      hide Main, Hash, ArrayPart, HashPart;
      assert Taken(hash[..][n]);
      assert NodeOk(hash[..][n], chains, HashPart(source, arr.Length), n);
    }

    /** The early exit: a node that never collided is alone in its chain. */
    lemma AloneThere(k: Key, n: nat)
      requires Valid() && hash.Length > 0 && n == Main(k, hash.Length)
      requires Hash(k) != hash[n].keyhash && hash[n].nocolliding
      ensures !Holds(hash[..], k)
    {
      hide Main, Hash, ArrayPart, HashPart;
      var nodes := hash[..];
      var src := HashPart(source, arr.Length);
      assert Taken(nodes[n]) && NodeOk(nodes[n], chains, src, n);
      assert chains[n] == [n];
      forall s | 0 <= s < |nodes| && Taken(nodes[s]) ensures nodes[s].key != k { assert NodeOk(nodes[s], chains, src, s); }
    }

    /** Looks a key up in the hash part. A node that never collided decides at once. */
    method LookupKey(k: Key) returns (r: Option<nat>)
      requires Valid()
      ensures r.Some? <==> Holds(hash[..], k)
      ensures r.Some? ==> r.value < hash.Length && hash[r.value].key == k
    {
      hide Linked, SecondPass, Main, Hash, ArrayPart, HashPart, ChainOf, After;
      if hash.Length == 0 { return None; }
      var n := Main(k, hash.Length);
      var keyhash := Hash(k);
      ghost var chain, i := Start(k, n);
      if keyhash != hash[n].keyhash && hash[n].nocolliding {
        AloneThere(k, n);
        return None;
      }
      while true
        invariant n < hash.Length && i < |chain| && chain[i] == n && ChainOf(chain)
        invariant Holds(hash[..], k) ==> exists p :: i <= p < |chain| && chain[p] < hash.Length && hash[chain[p]].key == k
        decreases |chain| - i
      {
        LinkOf(chain, i);
        HashIsRight(n);
        if keyhash == hash[n].keyhash && hash[n].key == k {
          assert Taken(hash[..][n]) && hash[..][n].key == k;
          return Some(n);
        }
        assert hash[n].key != k;
        NextOf(chain, i);
        if hash[n].next < 0 { return None; }
        n := hash[n].next;
        i := i + 1;
      }
    }

    lemma NextOf(chain: seq<nat>, i: nat)
      requires i < |chain|
      ensures if After(chain, i) < 0 then i + 1 == |chain| else i + 1 < |chain| && chain[i + 1] == After(chain, i)
    {
    }

    /** The value of any key of the source, from the array or the hash part. The key asked for is
        narrowed too, so one that does not fit gets the value of another key, if there is one. */
    method Index(key: Key) returns (r: Result<Option<Value>, KeyError>)
      requires Valid()
      ensures r == if key.TableKey? then Err(InvalidKey) else Ok(Find(source, Narrow(key)))
      ensures r.Ok? ==> (r.value == Find(source, key) <==> Fits(key) || r.value == None)
    {
      hide Find, SecondPass, HashPart;
      if key.TableKey? { return Err(InvalidKey); }
      var k := Narrow(key);
      NarrowFits(key);
      FindIs(source, key);
      FindIs(source, k);
      if InArray(k, arr.Length) {
        r := Ok(arr[k.i - 1]);
        InArrayPart(k);
      } else {
        var n := LookupKey(k);
        r := Ok(if n == None then None else hash[n.value].value);
        InHashPart(k);
        if n.Some? { ValueIsRight(n.value); }
      }
    }

    lemma InArrayPart(k: Key)
      requires Valid() && InArray(k, arr.Length)
      ensures arr[k.i - 1] == Find(source, k)
    {
      hide Find, SecondPass, HashPart;
      FindIs(source, k);
    }

    /** The hash part holds exactly the keys of the source that are not in the array. */
    lemma InHashPart(k: Key)
      requires Valid()
      ensures Holds(hash[..], k) <==> !InArray(k, arr.Length) && Find(source, k).Some?
    {
      hide Valid, Find, Holds, InArray;
      if Holds(hash[..], k) { HeldIsThere(k); }
      if !InArray(k, arr.Length) && Find(source, k).Some? { ThereIsHeld(k); }
    }

    lemma HeldIsThere(k: Key)
      requires Valid() && Holds(hash[..], k)
      ensures !InArray(k, arr.Length) && Find(source, k).Some?
    {
      hide Find, Main, Hash, HashPart, ArrayPart, InArray;
      var nodes := hash[..];
      var s :| 0 <= s < |nodes| && Taken(nodes[s]) && nodes[s].key == k;
      assert NodeOk(nodes[s], chains, HashPart(source, arr.Length), s);
      FindIs(source, k);
      HashPartKeys(source, arr.Length);
    }

    lemma ThereIsHeld(k: Key)
      requires Valid() && !InArray(k, arr.Length) && Find(source, k).Some?
      ensures Holds(hash[..], k)
    {
      hide Find, Main, Hash, HashPart, ArrayPart, InArray, Linked, SeenOrHome, Holds;
      FindIs(source, k);
      HashPartKeys(source, arr.Length);
      var i :| 0 <= i < |source| && source[i] == (k, Find(source, k).value);
      assert source[i].0 in HashPart(source, arr.Length);
      assert |HashPart(source, arr.Length)| > 0;
      assert Holds(hash[..], source[i].0);
    }

    lemma ValueIsRight(n: nat)
      requires Valid() && n < hash.Length
      ensures hash[n].value == Find(source, hash[n].key) && hash[n].value.Some?
    {
      hide Find, Main, Hash, HashPart, ArrayPart, InArray;
      var k := hash[n].key;
      var nodes := hash[..];
      assert Taken(nodes[n]) && Holds(nodes, k);
      assert NodeOk(nodes[n], chains, HashPart(source, arr.Length), n);
      InHashPart(k);
      FindIs(source, k);
      HashPartKeys(source, arr.Length);
    }

    // Iteration.

    ghost function AllKeys(): seq<Key>
      reads arr, hash
    {
      ArrayKeys(arr[..], 0) + HashKeys(hash[..])
    }

    /** The keys that come after a given one, or all of them. */
    ghost function Remaining(prev: Option<Key>): seq<Key>
      reads arr, hash
    {
      if prev == None then AllKeys()
      else if InArray(prev.value, arr.Length) then ArrayKeys(arr[..], prev.value.i) + HashKeys(hash[..])
      else if n :| 0 <= n < hash.Length && hash[n].key == prev.value then HashKeys(hash[n + 1..])
      else []
    }

    /** Each key of the source is among them exactly once. */
    lemma AllKeysOnce(k: Key)
      requires Valid()
      ensures k in AllKeys() <==> Find(source, k).Some?
      ensures forall i, j :: 0 <= i < j < |AllKeys()| ==> AllKeys()[i] != AllKeys()[j]
    {
      hide Find, Main, Hash, HashPart, ArrayPart, SecondPass;
      ArrayKeysAre(arr[..], 0);
      var a, h := ArrayKeys(arr[..], 0), HashKeys(hash[..]);
      InHashPart(k);
      if InArray(k, arr.Length) { InArrayPart(k); }
      assert k in h <==> Holds(hash[..], k) by {
        if k in h {
          var s :| 0 <= s < |h| && h[s] == k;
          assert Taken(hash[..][s]) && hash[..][s].key == k;
        }
      }
      forall s | 0 <= s < hash.Length ensures hash[s].key !in a {
        assert Taken(hash[..][s]) && hash[..][s].key == hash[s].key;
        InHashPart(hash[s].key);
      }
      HashDistinct();
      forall i, j | 0 <= i < j < |a + h| ensures (a + h)[i] != (a + h)[j] {
        if j >= |a| && i < |a| { assert (a + h)[j] == hash[j - |a|].key && (a + h)[i] in a; }
      }
    }

    /** Conversion is right, that is, the keys that iteration comes to are those of the source,
        if and only if no key of the source is a table and all integer keys fit into 32 bits. */
    lemma RightIffFits()
      requires Built()
      ensures (forall k :: k in AllKeys() <==> Find(source, k).Some?) <==> AllFit(source)
    {
      hide Valid, Find, Fits;
      if AllFit(source) {
        forall k { AllKeysOnce(k); }
      } else if forall k :: k in AllKeys() <==> Find(source, k).Some? {
        var i :| 0 <= i < |source| && !Fits(source[i].0);
        FindIs(source, source[i].0);
        assert source[i].0 in AllKeys();
        StoredFit(source[i].0);
      }
    }

    lemma StoredFit(k: Key)
      requires Built() && k in AllKeys()
      ensures Fits(k)
    {
      hide Valid;
      ArrayKeysAre(arr[..], 0);
      var h := HashKeys(hash[..]);
      if k in h { var s :| 0 <= s < |h| && h[s] == k; }
    }

    lemma HashDistinct()
      requires Valid()
      ensures forall s, t :: 0 <= s < t < hash.Length ==> hash[s].key != hash[t].key
    {
      hide Find, Main, Hash, HashPart, ArrayPart, NodesOk, ChainsOk;
      forall s, t | 0 <= s < t < hash.Length ensures hash[s].key != hash[t].key {
        assert Taken(hash[..][s]) && Taken(hash[..][t]);
      }
    }

    lemma RemainingAfterSlot(n: nat)
      requires Valid() && n < hash.Length
      ensures Remaining(Some(hash[n].key)) == HashKeys(hash[n + 1..])
    {
      hide Find, Main, Hash, HashPart, ArrayPart, SecondPass, InArray;
      HashDistinct();
      assert Taken(hash[..][n]) && Holds(hash[..], hash[n].key);
      InHashPart(hash[n].key);
    }

    lemma RemainingAbsent(k: Key)
      requires Valid() && !InArray(k, arr.Length) && !Holds(hash[..], k)
      ensures Remaining(Some(k)) == []
    {
      forall n | 0 <= n < hash.Length ensures hash[n].key != k { assert Taken(hash[..][n]) && hash[..][n].key == hash[n].key; }
    }

    /** The key after another one, which is narrowed first, or the first one. */
    method NextKey(key: Option<Key>) returns (r: Result<Option<Key>, KeyError>)
      requires Valid()
      ensures r.Err? <==> key.Some? && key.value.TableKey?
      ensures
        var prev := if key == None then None else Some(Narrow(key.value));
        r.Ok? ==>
          if Remaining(prev) == [] then r.value == None
          else r.value == Some(Remaining(prev)[0]) && Remaining(r.value) == Remaining(prev)[1..]
    {
      if key.Some? && key.value.TableKey? { return Err(InvalidKey); }
      var prev := if key == None then None else Some(Narrow(key.value));
      var next := Following(prev);
      return Ok(next);
    }

    /** What comes after a key as the table stores it. */
    method Following(prev: Option<Key>) returns (next: Option<Key>)
      requires Valid()
      ensures
        if Remaining(prev) == [] then next == None
        else next == Some(Remaining(prev)[0]) && Remaining(next) == Remaining(prev)[1..]
    {
      hide Valid, Remaining, AllKeys, Holds, ArrayKeys, HashKeys;
      if prev == None || InArray(prev.value, arr.Length) {
        var i := if prev == None then 0 else prev.value.i;
        RemainingInArray(prev, i);
        next := FirstFrom(prev, i);
        return;
      }
      var n := LookupKey(prev.value);
      if n == None {
        RemainingAbsent(prev.value);
        return None;
      }
      var s := n.value;
      NextSlot(s);
      if s + 1 == hash.Length { return None; }
      next := Some(hash[s + 1].key);
    }

    /** The first key at or behind an index of the array part. */
    method FirstFrom(prev: Option<Key>, from: nat) returns (next: Option<Key>)
      requires Valid() && from <= arr.Length
      requires Remaining(prev) == ArrayKeys(arr[..], from) + HashKeys(hash[..])
      ensures
        if Remaining(prev) == [] then next == None
        else next == Some(Remaining(prev)[0]) && Remaining(next) == Remaining(prev)[1..]
    {
      hide Valid, Remaining, AllKeys, Holds;
      var i := from;
      while i < arr.Length
        invariant from <= i <= arr.Length
        invariant Remaining(prev) == ArrayKeys(arr[..], i) + HashKeys(hash[..])
      {
        if arr[i].Some? {
          RemainingInArray(Some(IntKey(i + 1)), i + 1);
          FirstOff(IntKey(i + 1), ArrayKeys(arr[..], i + 1), HashKeys(hash[..]));
          return Some(IntKey(i + 1));
        }
        i := i + 1;
      }
      assert ArrayKeys(arr[..], i) == [];
      if hash.Length == 0 { return None; }
      FirstSlot(prev);
      next := Some(hash[0].key);
    }

    lemma FirstSlot(prev: Option<Key>)
      requires Valid() && hash.Length > 0 && Remaining(prev) == [] + HashKeys(hash[..])
      ensures Remaining(prev) != [] && Remaining(prev)[0] == hash[0].key
      ensures Remaining(Some(hash[0].key)) == Remaining(prev)[1..]
    {
      hide Valid, Remaining;
      RemainingAfterSlot(0);
      assert HashKeys(hash[..])[1..] == HashKeys(hash[1..]);
    }

    lemma NextSlot(s: nat)
      requires Valid() && s < hash.Length
      ensures
        var rest := Remaining(Some(hash[s].key));
        if s + 1 == hash.Length then rest == []
        else rest != [] && rest[0] == hash[s + 1].key && Remaining(Some(hash[s + 1].key)) == rest[1..]
    {
      hide Valid, Remaining;
      RemainingAfterSlot(s);
      if s + 1 < hash.Length {
        RemainingAfterSlot(s + 1);
        assert HashKeys(hash[s + 1..])[1..] == HashKeys(hash[s + 2..]);
      }
    }

    lemma RemainingInArray(prev: Option<Key>, i: nat)
      requires i <= arr.Length && (if prev == None then i == 0 else InArray(prev.value, arr.Length) && prev.value.i == i)
      ensures Remaining(prev) == ArrayKeys(arr[..], i) + HashKeys(hash[..])
    {
    }

    /** Asking for the next key until there is none visits every key of the source exactly once. */
    method Visit() returns (keys: seq<Key>)
      requires Valid()
      ensures forall i, j :: 0 <= i < j < |keys| ==> keys[i] != keys[j]
      ensures forall k :: k in keys <==> Find(source, k).Some?
    {
      hide Valid, Remaining, AllKeys, Find, Narrow, Fits;
      keys := [];
      var prev := None;
      VisitStart();
      var first := NextKey(prev);
      var next := first.value;
      while next.Some?
        invariant keys + Remaining(prev) == AllKeys()
        invariant if Remaining(prev) == [] then next == None
                  else next == Some(Remaining(prev)[0]) && Remaining(next) == Remaining(prev)[1..]
        decreases |Remaining(prev)|
      {
        assert Remaining(prev) == [next.value] + Remaining(next);
        keys := keys + [next.value];
        assert next.value in AllKeys() by { assert (keys + Remaining(next))[|keys| - 1] == next.value; }
        VisitedFits(next.value);
        prev := next;
        var after := NextKey(prev);
        next := after.value;
      }
      assert keys == AllKeys();
      forall k { AllKeysOnce(k); }
      AllKeysOnce(IntKey(0));
    }

    lemma VisitedFits(k: Key)
      requires Valid() && k in AllKeys()
      ensures Narrow(k) == k && !k.TableKey?
    {
      hide Find, AllKeys, SecondPass, ArrayPart, HashPart, Full, Narrow;
      AllKeysOnce(k);
      FindIs(source, k);
      NarrowFits(k);
    }

    lemma VisitStart()
      ensures [] + Remaining(None) == AllKeys()
    {
    }
  }

  lemma FirstOff(k: Key, a: seq<Key>, b: seq<Key>)
    ensures ([k] + a + b)[0] == k && ([k] + a + b)[1..] == a + b
  {
  }

  /** The keys of the array part from index `p` on. */
  function ArrayKeys(arr: seq<Option<Value>>, p: nat): seq<Key>
    requires p <= |arr|
    decreases |arr| - p
  {
    if p == |arr| then []
    else if arr[p].Some? then [IntKey(p + 1)] + ArrayKeys(arr, p + 1)
    else ArrayKeys(arr, p + 1)
  }

  function HashKeys(nodes: seq<Node>): (r: seq<Key>)
    ensures |r| == |nodes| && forall s :: 0 <= s < |nodes| ==> r[s] == nodes[s].key
  {
    seq(|nodes|, s requires 0 <= s < |nodes| => nodes[s].key)
  }

  lemma {:induction false} ArrayKeysAre(arr: seq<Option<Value>>, p: nat)
    requires p <= |arr|
    ensures forall k :: k in ArrayKeys(arr, p) <==> k.IntKey? && p < k.i <= |arr| && arr[k.i - 1].Some?
    ensures forall i, j :: 0 <= i < j < |ArrayKeys(arr, p)| ==> ArrayKeys(arr, p)[i] != ArrayKeys(arr, p)[j]
    decreases |arr| - p
  {
    if p < |arr| {
      ArrayKeysAre(arr, p + 1);
      var rest := ArrayKeys(arr, p + 1);
      if arr[p].Some? {
        var all := [IntKey(p + 1)] + rest;
        assert IntKey(p + 1) !in rest;
        forall i, j | 0 <= i < j < |all| ensures all[i] != all[j] {
          assert all[j] == rest[j - 1];
          if i > 0 { assert all[i] == rest[i - 1]; } else { assert all[j] in rest; }
        }
      }
    }
  }

  lemma AllIn(nodes: seq<Node>, chains: seq<seq<nat>>, entries: Entries, sizearray: nat)
    requires Distinct(entries) && |nodes| == |HashPart(entries, sizearray)|
    requires SecondPass(nodes, chains, entries, sizearray, |entries|)
    ensures Full(nodes)
  {
    hide Linked, Holds, Full, HashPart;
    HashPartKeys(entries, sizearray);
    EverySlotTaken(nodes, HashPart(entries, sizearray));
  }

  /** With nothing for the hash part the array is read key by key. */
  method FillArray(arr: array<Option<Value>>, entries: Entries)
    requires Distinct(entries)
    modifies arr
    ensures ArrayPart(arr[..], entries, arr.Length)
  {
    hide Find;
    var i := 1;
    while i <= arr.Length
      invariant 1 <= i <= arr.Length + 1
      invariant forall p :: 0 <= p < i - 1 ==> arr[p] == Find(entries, IntKey(p + 1))
    {
      arr[i - 1] := Find(entries, IntKey(i));
      i := i + 1;
    }
    forall p | 0 <= p < arr.Length
      ensures forall j :: 0 <= j < |entries| && entries[j].0 == IntKey(p + 1) ==> arr[p] == Some(entries[j].1)
      ensures arr[p].Some? ==> exists j :: 0 <= j < |entries| && entries[j] == (IntKey(p + 1), arr[p].value)
    {
      FindIs(entries, IntKey(p + 1));
    }
  }
}
