/** The read buffer of a socket: the blocks as they came from the network, in nodes taken
    from a shared pool, and lines and byte counts cut out of them. */
module SocketBuffer {
  import opened Sequences
  import opened Modular
  import opened Wrappers

  type Byte = bv8

  datatype Node = Node(id: nat, msg: seq<Byte>)

  const LARGE_PAGE_NODE := 12

  /** The bytes of a list of nodes. */
  function Concat(nodes: seq<Node>): seq<Byte> {
    if nodes == [] then [] else nodes[0].msg + Concat(nodes[1..])
  }

  lemma {:induction false} ConcatSnoc(nodes: seq<Node>, n: Node)
    ensures Concat(nodes + [n]) == Concat(nodes) + n.msg
  {
    if nodes == [] {
      assert nodes + [n] == [n] && [n][1..] == [];
    } else {
      ConcatSnoc(nodes[1..], n);
      assert (nodes + [n])[0] == nodes[0] && (nodes + [n])[1..] == nodes[1..] + [n];
      Regroup(nodes[0].msg, Concat(nodes[1..]), n.msg);
    }
  }

  /** What is left from offset `from` of node `k` on. */
  function Suffix(nodes: seq<Node>, k: nat, from: nat): seq<Byte>
    requires k < |nodes| && from <= |nodes[k].msg|
  {
    nodes[k].msg[from..] + Concat(nodes[k + 1..])
  }

  predicate Occurs(s: seq<Byte>, sep: seq<Byte>, i: nat) { i + |sep| <= |s| && s[i..i + |sep|] == sep }

  /** The free nodes, shared by all buffers. `used` are the nodes the buffers hold. */
  class Pool {
    var free: seq<nat>
    var total: nat
    var pages: nat                 // length of the pool table
    ghost var used: set<nat>

    ghost predicate Valid()
      reads this
    {
      && (forall i, j :: 0 <= i < j < |free| ==> free[i] != free[j])
      && (forall n :: 0 <= n < total <==> n in used || n in free)
      && (forall n :: n in free ==> n !in used)
    }

    constructor ()
      ensures Valid() && used == {}
    {
      free, total, pages, used := [], 0, 0, {};
    }

    /** Chunks of nodes double up to a page of 4096. */
    function PageSize(tsz: nat): (r: nat)
      ensures r > 0
    {
      if tsz <= LARGE_PAGE_NODE - 3 then 8 * Pow2(tsz) else 8 * Pow2(LARGE_PAGE_NODE - 3)
    }

    /** One more chunk in the table, as large as the length of the table says. The first place of
        the table is that of the free list. */
    predicate Grown(pages0: nat, total0: nat)
      reads this
    {
      var tsz := if pages0 == 0 then 1 else pages0;
      pages == tsz + 1 && total == total0 + PageSize(tsz)
    }

    /** A new chunk of nodes, when there is no free one. */
    method NewPage()
      requires Valid() && free == []
      modifies this
      ensures Valid() && free != [] && used == old(used) && Grown(old(pages), old(total))
    {
      var tsz := if pages == 0 then 1 else pages;
      var size, first := PageSize(tsz), total;
      free := seq(size, i requires 0 <= i < size => first + i);
      forall n | first <= n < first + size ensures n in free { assert free[n - first] == n; }
      total := first + size;
      pages := tsz + 1;
    }

    method Take() returns (id: nat)
      requires Valid()
      modifies this
      ensures Valid() && id !in old(used) && used == old(used) + {id}
      ensures if old(free) == [] then Grown(old(pages), old(total))
              else id == old(free)[0] && free == old(free)[1..] && pages == old(pages) && total == old(total)
    {
      if free == [] { NewPage(); }
      id := free[0];
      ghost var before := free;
      free := free[1..];
      assert before == [id] + free;
      used := used + {id};
    }

    method Return(id: nat)
      requires Valid() && id in used
      modifies this
      ensures Valid() && used == old(used) - {id}
      ensures free == [id] + old(free) && pages == old(pages) && total == old(total)
    {
      free := [id] + free;
      used := used - {id};
    }
  }

  class Buffer {
    var size: int
    var offset: nat
    var nodes: seq<Node>

    /** Every node holds something unread, and is taken from the pool. */
    ghost predicate Linked(pool: Pool)
      reads `nodes, pool
    {
      && pool.Valid()
      && (forall i :: 0 <= i < |nodes| ==> nodes[i].msg != [] && nodes[i].id in pool.used)
      && (forall i, j :: 0 <= i < j < |nodes| ==> nodes[i].id != nodes[j].id)
    }

    ghost predicate Shape(pool: Pool)
      reads `nodes, `offset, pool
    {
      Linked(pool) && if nodes == [] then offset == 0 else offset < |nodes[0].msg|
    }

    /** The bytes that have not been read yet. */
    ghost function Bytes(): seq<Byte>
      reads this
      requires offset <= |Concat(nodes)|
    {
      Concat(nodes)[offset..]
    }

    ghost predicate Valid(pool: Pool)
      reads this, pool
    {
      Shape(pool) && offset <= |Concat(nodes)| && size == |Bytes()|
    }

    constructor ()
      ensures nodes == [] && size == 0 && offset == 0
    {
      size, offset, nodes := 0, 0, [];
    }

    /** The node ids of this buffer. */
    ghost function Ids(): set<nat>
      reads `nodes
    {
      set n | n in nodes :: n.id
    }

    method PushBuffer(pool: Pool, msg: seq<Byte>) returns (sz: int)
      requires Valid(pool) && msg != []
      modifies this, pool
      ensures Valid(pool) && Bytes() == old(Bytes()) + msg && sz == size
      ensures pool.used - Ids() == old(pool.used - Ids())
    {
      var id := pool.Take();
      ConcatSnoc(nodes, Node(id, msg));
      ghost var before := nodes;
      nodes := nodes + [Node(id, msg)];
      size := size + |msg|;
      sz := size;
      assert Concat(nodes)[offset..] == Concat(before)[offset..] + msg;
    }

    /** The first node goes back to the pool. */
    method ReturnFreeNode(pool: Pool)
      requires Linked(pool) && nodes != []
      modifies `offset, `nodes, pool
      ensures Shape(pool) && offset == 0 && nodes == old(nodes)[1..]
      ensures pool.used - Ids() == old(pool.used - Ids())
    {
      var id := nodes[0].id;
      ghost var rest := nodes[1..];
      assert forall i :: 0 <= i < |rest| ==> rest[i] == nodes[i + 1];
      offset := 0;
      nodes := nodes[1..];
      pool.Return(id);
    }

    /** Removes `sz` bytes of the first node and returns `keep` of them. */
    method PopWithin(pool: Pool, sz: nat, keep: nat) returns (s: seq<Byte>)
      requires Shape(pool) && nodes != [] && keep <= sz <= |nodes[0].msg| - offset
      modifies `offset, `nodes, pool
      ensures Shape(pool) && offset <= |Concat(nodes)|
      ensures old(offset <= |Concat(nodes)|) && sz <= |old(Bytes())|
      ensures s == old(Bytes())[..keep] && Bytes() == old(Bytes())[sz..]
      ensures pool.used - Ids() == old(pool.used - Ids())
    {
      hide Concat, Ids;
      FirstNode();
      s := nodes[0].msg[offset..offset + keep];
      if sz < |nodes[0].msg| - offset {
        offset := offset + sz;
        FirstNode();
      } else {
        ReturnFreeNode(pool);
        NoOffset();
      }
    }

    /** Removes `sz` bytes and returns all but the last `skip` of them. */
    method PopString(pool: Pool, sz: nat, skip: nat) returns (s: seq<Byte>)
      requires Valid(pool) && nodes != [] && skip <= sz <= size
      modifies `offset, `nodes, pool
      ensures Shape(pool) && offset <= |Concat(nodes)|
      ensures s == old(Bytes())[..sz - skip] && Bytes() == old(Bytes())[sz..]
      ensures pool.used - Ids() == old(pool.used - Ids())
    {
      hide Concat, Ids, Linked, Bytes;
      if sz <= |nodes[0].msg| - offset {
        s := PopWithin(pool, sz, sz - skip);
      } else {
        s := PopAcross(pool, sz, skip);
      }
    }

    /** The same, over as many nodes as it takes. */
    method PopAcross(pool: Pool, sz: nat, skip: nat) returns (s: seq<Byte>)
      requires Shape(pool) && nodes != [] && offset <= |Concat(nodes)| && 0 < sz <= |Bytes()| && skip <= sz
      modifies `offset, `nodes, pool
      ensures Shape(pool) && offset <= |Concat(nodes)|
      ensures s == old(Bytes())[..sz - skip] && Bytes() == old(Bytes())[sz..]
      ensures pool.used - Ids() == old(pool.used - Ids())
    {
      hide Concat, Ids, Bytes, Linked;
      ghost var all := Bytes();
      s := [];
      var left: int := sz;
      while left > |nodes[0].msg| - offset
        invariant Shape(pool) && nodes != [] && offset <= |Concat(nodes)|
        invariant 0 < left <= sz && Bytes() == all[sz - left..]
        invariant s == all[..if left > skip then sz - left else sz - skip]
        invariant pool.used - Ids() == old(pool.used - Ids())
        decreases |nodes|
      {
        var bytes := |nodes[0].msg| - offset;
        var realSz := left - skip;
        var keep := if realSz <= 0 then 0 else if realSz < bytes then realSz else bytes;
        ghost var at := sz - left;
        var part := PopWhole(pool, keep, left);
        s := s + part;
        Advance(all, at, bytes, keep);
        left := left - bytes;
      }
      var keep := if left > skip then left - skip else 0;
      Advance(all, sz - left, left, keep);
      var part := PopWithin(pool, left, keep);
      s := s + part;
    }

    lemma Advance(all: seq<Byte>, at: nat, n: nat, keep: nat)
      requires keep <= n && at + n <= |all|
      ensures all[at..][n..] == all[at + n..] && all[..at] + all[at..][..keep] == all[..at + keep]
    {
    }

    /** Removes the first node when more is wanted than it has. */
    method PopWhole(pool: Pool, keep: nat, left: int) returns (s: seq<Byte>)
      requires Shape(pool) && nodes != [] && offset <= |Concat(nodes)|
      requires keep <= |nodes[0].msg| - offset < left <= |Bytes()|
      modifies `offset, `nodes, pool
      ensures Shape(pool) && offset <= |Concat(nodes)| && |nodes| < |old(nodes)| && nodes != []
      ensures s == old(Bytes())[..keep] && Bytes() == old(Bytes())[old(|nodes[0].msg| - offset)..]
      ensures pool.used - Ids() == old(pool.used - Ids())
    {
      hide Concat, Ids;
      FirstNode();
      MessagesLeft(left - (|nodes[0].msg| - offset), Concat(nodes[1..]));
      s := nodes[0].msg[offset..offset + keep];
      ReturnFreeNode(pool);
      NoOffset();
    }

    /** More bytes wanted than the first node has: there is another node. */
    lemma MessagesLeft(left: int, rest: seq<Byte>)
      requires nodes != [] && rest == Concat(nodes[1..]) && 0 < left <= |rest|
      ensures nodes[1..] != []
    {
    }

    lemma NoOffset()
      requires offset == 0
      ensures Bytes() == Concat(nodes) && (nodes == [] ==> Concat(nodes) == [])
    {
    }

    /** The unread bytes are those of the first node and of the others. */
    lemma FirstNode()
      requires nodes != [] && offset <= |nodes[0].msg|
      ensures offset <= |Concat(nodes)|
      ensures Bytes() == nodes[0].msg[offset..] + Concat(nodes[1..])
    {
    }

    /** Takes exactly `sz` bytes, when there are as many. */
    method PopBuffer(pool: Pool, sz: nat) returns (s: Option<seq<Byte>>, left: int)
      requires Valid(pool)
      modifies this, pool
      ensures Valid(pool) && left == size
      ensures if |old(Bytes())| < sz || sz == 0 then s == None && Bytes() == old(Bytes())
              else s == Some(old(Bytes())[..sz]) && Bytes() == old(Bytes())[sz..]
      ensures pool.used - Ids() == old(pool.used - Ids())
    {
      hide Concat, Ids, Linked;
      s := None;
      if !(size < sz || sz == 0) {
        NothingWithoutNodes();
        var taken := PopString(pool, sz, 0);
        s := Some(taken);
        size := size - sz;
      }
      left := size;
    }

    lemma NothingWithoutNodes()
      ensures nodes == [] ==> Concat(nodes) == []
    {
    }

    /** Takes everything. */
    method ReadAll(pool: Pool) returns (s: seq<Byte>)
      requires Valid(pool)
      modifies this, pool
      ensures Valid(pool) && s == old(Bytes()) && Bytes() == []
      ensures pool.used == old(pool.used - Ids())
    {
      hide Concat, Ids, Linked;
      ghost var all := Bytes();
      s := [];
      assert all == s + Bytes();
      while nodes != []
        modifies `offset, `nodes, pool
        invariant Shape(pool) && offset <= |Concat(nodes)| && all == s + Bytes()
        invariant pool.used - Ids() == old(pool.used - Ids())
        decreases |nodes|
      {
        FirstNode();
        Regroup(s, nodes[0].msg[offset..], Concat(nodes[1..]));
        s := s + nodes[0].msg[offset..];
        ReturnFreeNode(pool);
        NoOffset();
      }
      NothingWithoutNodes();
      NoIds();
      size := 0;
    }

    lemma NoIds()
      requires nodes == []
      ensures Ids() == {}
    {
    }

    /** Drops everything. */
    method ClearBuffer(pool: Pool)
      requires Valid(pool)
      modifies this, pool
      ensures Valid(pool) && Bytes() == [] && pool.used == old(pool.used - Ids())
    {
      hide Concat, Ids, Linked;
      while nodes != []
        modifies `offset, `nodes, pool
        invariant Shape(pool) && pool.used - Ids() == old(pool.used - Ids())
        decreases |nodes|
      {
        ReturnFreeNode(pool);
      }
      NothingWithoutNodes();
      NoIds();
      size := 0;
    }

    /** Does the separator start at offset `from` of node `k`? It may go on in the next nodes. */
    method CheckSep(k: nat, from: nat, sep: seq<Byte>) returns (r: bool)
      requires k < |nodes| && from <= |nodes[k].msg| && |sep| <= |Suffix(nodes, k, from)|
      ensures r == Occurs(Suffix(nodes, k, from), sep, 0)
    {
      hide Concat;
      var node: nat, at: nat, rest := k, from, sep;
      while true
        invariant node < |nodes| && at <= |nodes[node].msg| && |rest| <= |Suffix(nodes, node, at)|
        invariant Occurs(Suffix(nodes, k, from), sep, 0) == Occurs(Suffix(nodes, node, at), rest, 0)
        decreases |nodes| - node
      {
        var sz := |nodes[node].msg| - at;
        ghost var s := Suffix(nodes, node, at);
        if sz >= |rest| {
          assert s[..|rest|] == nodes[node].msg[at..at + |rest|];
          return nodes[node].msg[at..at + |rest|] == rest;
        }
        NextNode(node, at);
        SplitSep(s, nodes[node].msg[at..], rest);
        if sz > 0 {
          if nodes[node].msg[at..] != rest[..sz] { return false; }
        }
        rest := rest[sz..];
        at := 0;
        node := node + 1;
      }
    }

    /** What follows a node: the nodes after it. */
    lemma NextNode(k: nat, from: nat)
      requires k < |nodes| && from <= |nodes[k].msg|
      ensures Suffix(nodes, k, from) == nodes[k].msg[from..] + Concat(nodes[k + 1..])
      ensures if k + 1 < |nodes| then Concat(nodes[k + 1..]) == Suffix(nodes, k + 1, 0) else Concat(nodes[k + 1..]) == []
    {
      if k + 1 < |nodes| {
        assert nodes[k + 1..][1..] == nodes[k + 2..];
      }
    }

    lemma SplitSep(s: seq<Byte>, part: seq<Byte>, sep: seq<Byte>)
      requires |part| < |sep| <= |s| && part <= s
      ensures Occurs(s, sep, 0) <==> part == sep[..|part|] && Occurs(s[|part|..], sep[|part|..], 0)
    {
      assert s == part + s[|part|..];
      assert sep == sep[..|part|] + sep[|part|..];
      if part == sep[..|part|] && Occurs(s[|part|..], sep[|part|..], 0) {
        assert s[..|sep|] == part + s[|part|..][..|sep| - |part|];
      }
    }

    /** The leftmost line end, or none: where the bytes before it end. */
    ghost predicate FirstSep(sep: seq<Byte>, i: nat)
      reads this
      requires offset <= |Concat(nodes)|
    {
      Occurs(Bytes(), sep, i) && forall j :: 0 <= j < i ==> !Occurs(Bytes(), sep, j)
    }

    /** Takes the bytes before the leftmost separator and drops the separator; or only says whether
        there is one. An empty buffer has no line, whatever the separator. */
    method ReadLine(pool: Pool, check: bool, sep: seq<Byte>) returns (found: bool, line: seq<Byte>)
      requires Valid(pool)
      modifies this, pool
      ensures Valid(pool)
      ensures found <==> old(Bytes()) != [] && exists i :: Occurs(old(Bytes()), sep, i)
      ensures !found || check ==> Bytes() == old(Bytes()) && line == []
      ensures found && !check ==>
        old(FirstSep(sep, |line|)) && old(Bytes())[..|line|] == line && Bytes() == old(Bytes())[|line| + |sep|..]
      ensures pool.used - Ids() == old(pool.used - Ids())
    {
      hide Concat, Ids, Suffix;
      found, line := false, [];
      if nodes == [] { NothingWithoutNodes(); return; }
      FirstNode();
      var i := FindSep(sep);
      if i.Some? {
        found := true;
        if !check {
          line := PopString(pool, i.value + |sep|, |sep|);
          size := size - (i.value + |sep|);
        }
      }
    }

    /** Walks along the nodes to the leftmost separator. */
    method FindSep(sep: seq<Byte>) returns (r: Option<nat>)
      requires nodes != [] && offset < |nodes[0].msg| && offset <= |Concat(nodes)| && size == |Bytes()|
      requires forall i :: 0 <= i < |nodes| ==> nodes[i].msg != []
      ensures r.Some? ==> FirstSep(sep, r.value)
      ensures r == None ==> forall i :: !Occurs(Bytes(), sep, i)
    {
      hide Concat, Suffix, Occurs;
      ghost var all := Bytes();
      FirstNode();
      NextNode(0, offset);
      var k: nat, from: nat, i := 0, offset, 0;
      var bytes := |nodes[0].msg| - offset;
      while i <= size - |sep|
        invariant 0 <= i < |all| && k < |nodes| && from < |nodes[k].msg| && bytes == |nodes[k].msg| - from
        invariant Suffix(nodes, k, from) == all[i..]
        invariant forall j :: 0 <= j < i ==> !Occurs(all, sep, j)
        decreases |all| - i
      {
        var here := CheckSep(k, from, sep);
        SepAt(all, sep, i);
        if here { return Some(i); }
        NextNode(k, from);
        Skip(all, i, nodes[k].msg[from..], Concat(nodes[k + 1..]));
        assert nodes[k].msg[from..][1..] == nodes[k].msg[from + 1..];
        from := from + 1;
        bytes := bytes - 1;
        if bytes == 0 {
          k := k + 1;
          from := 0;
          if k == |nodes| {
            NoRoom(all, sep, i + 1);
            return None;
          }
          bytes := |nodes[k].msg|;
        }
        NextNode(k, from);
        i := i + 1;
      }
      NoRoom(all, sep, i);
      r := None;
    }

    /** Too close to the end for the separator, or at the end. */
    lemma NoRoom(all: seq<Byte>, sep: seq<Byte>, i: nat)
      requires i > |all| - |sep| || (i == |all| && !Occurs(all, sep, 0))
      ensures forall j :: i <= j ==> !Occurs(all, sep, j)
    {
    }

    lemma SepAt(all: seq<Byte>, sep: seq<Byte>, i: nat)
      requires i <= |all|
      ensures Occurs(all[i..], sep, 0) <==> Occurs(all, sep, i)
    {
      if i + |sep| <= |all| { assert all[i..][..|sep|] == all[i..i + |sep|]; }
    }

    lemma Skip(all: seq<Byte>, i: nat, part: seq<Byte>, rest: seq<Byte>)
      requires i <= |all| && part != [] && all[i..] == part + rest
      ensures i < |all| && all[i + 1..] == part[1..] + rest
    {
      assert all[i + 1..] == all[i..][1..];
    }
  }
}
