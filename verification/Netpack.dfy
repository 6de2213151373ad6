/** Packets of two length bytes and their data, put together from the chunks a socket
    happens to deliver. */
module Netpack {
  import opened Sequences
  import opened Modular
  import opened Wrappers

  type Byte = x: int | 0 <= x < 256

  const QUEUESIZE := 1024
  const HASHSIZE := 4096

  datatype Packet = Packet(id: nat, data: seq<Byte>)

  /** A packet of which only a part has arrived: one length byte (`read` is -1), or the
      length and the first `read` bytes. */
  datatype Uncomplete = Uncomplete(id: nat, size: int, buffer: seq<Byte>, read: int, header: Byte)

  datatype Outcome = Nothing | Data(data: seq<Byte>) | More

  // Frames.

  function ReadSize(stream: seq<Byte>): int
    requires |stream| >= 2
  {
    stream[0] as int * 256 + stream[1] as int
  }

  predicate HasFrame(stream: seq<Byte>) { |stream| >= 2 && |stream| - 2 >= ReadSize(stream) }

  /** The complete packets at the front of a stream. */
  function Frames(stream: seq<Byte>): seq<seq<Byte>>
    decreases |stream|
  {
    if !HasFrame(stream) then [] else [stream[2..2 + ReadSize(stream)]] + Frames(stream[2 + ReadSize(stream)..])
  }

  /** What follows the complete packets. */
  function Leftover(stream: seq<Byte>): seq<Byte>
    decreases |stream|
  {
    if !HasFrame(stream) then stream else Leftover(stream[2 + ReadSize(stream)..])
  }

  /** Cutting a stream anywhere changes neither the packets nor the leftover. */
  lemma {:induction false} CutAnywhere(a: seq<Byte>, b: seq<Byte>)
    ensures Frames(a + b) == Frames(a) + Frames(Leftover(a) + b)
    ensures Leftover(a + b) == Leftover(Leftover(a) + b)
    decreases |a|
  {
    if HasFrame(a) {
      var n := 2 + ReadSize(a);
      assert (a + b)[..2] == a[..2];
      assert (a + b)[2..n] == a[2..n] && (a + b)[n..] == a[n..] + b;
      CutAnywhere(a[n..], b);
    }
  }

  // Packing.

  const MAXPACK := 0x10000

  datatype PackError = TooLong

  /** The two length bytes. */
  function Header(len: nat): (h: seq<Byte>)
    ensures |h| == 2
  {
    [len / 256 % 256, len % 256]
  }

  /** A packet ready to send. The largest length that is accepted does not fit into the header. */
  function Pack(data: seq<Byte>): Result<seq<Byte>, PackError> {
    if |data| > MAXPACK then Err(TooLong) else Ok(Header(|data|) + data)
  }

  lemma PackedFront(data: seq<Byte>, rest: seq<Byte>)
    requires |data| < MAXPACK
    ensures Frames(Pack(data).value + rest) == [data] + Frames(rest)
    ensures Leftover(Pack(data).value + rest) == Leftover(rest)
  {
    var s := Pack(data).value + rest;
    var n := |data|;
    assert s[0] == n / 256 && s[1] == n % 256;
    assert s[2..2 + n] == data && s[2 + n..] == rest;
  }

  /** A packet that is accepted comes out whole if and only if it is not of the largest length. */
  lemma PackExactly(data: seq<Byte>)
    requires Pack(data).Ok?
    ensures Frames(Pack(data).value) == [data] && Leftover(Pack(data).value) == [] <==> |data| < MAXPACK
  {
    var s := Pack(data).value;
    assert s + [] == s;
    if |data| < MAXPACK {
      PackedFront(data, []);
    } else {
      assert s[0] == 0 && s[1] == 0 && HasFrame(s);
      assert Frames(s)[0] == [];
    }
  }

  /** 65536 bytes are accepted, and the first packet that arrives is empty. */
  lemma PackLargest(data: seq<Byte>)
    requires |data| == MAXPACK
    ensures Pack(data).Ok? && Frames(Pack(data).value) == [[]] + Frames(data)
  {
    var s := Pack(data).value;
    assert s[0] == 0 && s[1] == 0 && s[2..2] == [] && s[2..] == data;
  }

  /** The packets one after the other. */
  function PackAll(datas: seq<seq<Byte>>): seq<Byte>
    requires forall d :: d in datas ==> |d| <= MAXPACK
  {
    if datas == [] then [] else Pack(datas[0]).value + PackAll(datas[1..])
  }

  /** What is packed and sent comes out packet by packet, whatever follows it. */
  lemma {:induction false} PackedComesOut(datas: seq<seq<Byte>>, rest: seq<Byte>)
    requires forall d :: d in datas ==> |d| < MAXPACK
    ensures Frames(PackAll(datas) + rest) == datas + Frames(rest)
    ensures Leftover(PackAll(datas) + rest) == Leftover(rest)
  {
    hide Frames, Leftover, Header;
    if datas == [] {
      assert PackAll(datas) + rest == rest && datas + Frames(rest) == Frames(rest);
    } else {
      var more := PackAll(datas[1..]) + rest;
      assert PackAll(datas) + rest == Pack(datas[0]).value + more;
      PackedFront(datas[0], more);
      PackedComesOut(datas[1..], rest);
      assert [datas[0]] + (datas[1..] + Frames(rest)) == datas + Frames(rest);
    }
  }

  // The chains of incomplete packets.

  function HashFd(fd: nat): (r: nat)
    ensures r < HASHSIZE
  {
    (fd / 0x100_0000 + fd / 0x1000 + fd) % 0x1_0000_0000 % HASHSIZE
  }

  function Lookup(chain: seq<Uncomplete>, fd: nat): Option<Uncomplete> {
    if chain == [] then None
    else if chain[0].id == fd then Some(chain[0])
    else Lookup(chain[1..], fd)
  }

  function Remove(chain: seq<Uncomplete>, fd: nat): seq<Uncomplete> {
    if chain == [] then []
    else if chain[0].id == fd then chain[1..]
    else [chain[0]] + Remove(chain[1..], fd)
  }

  predicate Partial(uc: Uncomplete) {
    if uc.read == -1 then true else 0 <= uc.read < uc.size < 0x10000 && |uc.buffer| == uc.read
  }

  /** The bytes of an incomplete packet as they came. */
  function Arrived(uc: Option<Uncomplete>): seq<Byte>
    requires uc.Some? ==> Partial(uc.value)
  {
    if uc == None then []
    else if uc.value.read == -1 then [uc.value.header]
    else [uc.value.size / 256, uc.value.size % 256] + uc.value.buffer
  }

  ghost predicate ChainOk(chain: seq<Uncomplete>, h: nat) {
    && (forall i :: 0 <= i < |chain| ==> Partial(chain[i]) && HashFd(chain[i].id) == h)
    && (forall i, j :: 0 <= i < j < |chain| ==> chain[i].id != chain[j].id)
  }

  lemma {:induction false} LookupIs(chain: seq<Uncomplete>, fd: nat)
    ensures Lookup(chain, fd) == None <==> forall i :: 0 <= i < |chain| ==> chain[i].id != fd
    ensures Lookup(chain, fd).Some? ==> Lookup(chain, fd).value in chain && Lookup(chain, fd).value.id == fd
  {
    if chain != [] {
      LookupIs(chain[1..], fd);
      assert forall i :: 0 < i < |chain| ==> chain[i] == chain[1..][i - 1];
      if chain[0].id != fd && Lookup(chain, fd) == None {
        forall i | 0 <= i < |chain| ensures chain[i].id != fd { if i > 0 { assert chain[1..][i - 1].id != fd; } }
      }
    }
  }

  lemma {:induction false} RemoveIs(chain: seq<Uncomplete>, fd: nat, h: nat)
    requires ChainOk(chain, h)
    ensures ChainOk(Remove(chain, fd), h) && Lookup(Remove(chain, fd), fd) == None
    ensures forall x :: x != fd ==> Lookup(Remove(chain, fd), x) == Lookup(chain, x)
    ensures forall uc :: uc in Remove(chain, fd) ==> uc in chain
  {
    if chain != [] {
      assert forall i :: 0 < i < |chain| ==> chain[i] == chain[1..][i - 1];
      RemoveIs(chain[1..], fd, h);
      LookupIs(chain[1..], fd);
      var r := Remove(chain, fd);
      if chain[0].id != fd {
        var rest := Remove(chain[1..], fd);
        assert r == [chain[0]] + rest && r[1..] == rest;
        forall i | 0 <= i < |rest| ensures rest[i].id != chain[0].id {
          assert rest[i] in chain[1..];
        }
      }
    }
  }

  lemma AddIs(chain: seq<Uncomplete>, uc: Uncomplete, h: nat)
    requires ChainOk(chain, h) && Lookup(chain, uc.id) == None && Partial(uc) && HashFd(uc.id) == h
    ensures ChainOk([uc] + chain, h) && Lookup([uc] + chain, uc.id) == Some(uc)
    ensures forall x :: x != uc.id ==> Lookup([uc] + chain, x) == Lookup(chain, x)
  {
    LookupIs(chain, uc.id);
    assert ([uc] + chain)[1..] == chain;
  }

  function Tagged(fd: nat, datas: seq<seq<Byte>>): (r: seq<Packet>)
    ensures |r| == |datas|
  {
    if datas == [] then [] else [Packet(fd, datas[0])] + Tagged(fd, datas[1..])
  }

  lemma FramesStep(stream: seq<Byte>)
    ensures if HasFrame(stream) then
              var n := 2 + ReadSize(stream);
              && Frames(stream) == [stream[2..n]] + Frames(stream[n..]) && Leftover(stream) == Leftover(stream[n..])
            else Frames(stream) == [] && Leftover(stream) == stream
  {
  }

  lemma TaggedStep(fd: nat, datas: seq<seq<Byte>>)
    ensures if datas == [] then Tagged(fd, datas) == []
            else Tagged(fd, datas) == [Packet(fd, datas[0])] + Tagged(fd, datas[1..])
  {
  }

  /** The two length bytes and what came after them. */
  lemma ArrivedIs(buffer: seq<Byte>)
    requires |buffer| >= 2
    ensures [ReadSize(buffer) / 256, ReadSize(buffer) % 256] + buffer[2..] == buffer
  {
  }

  /** How a chunk is answered: nothing complete, one packet and nothing else, or packets in
      the queue. */
  function Answer(frames: seq<seq<Byte>>, left: seq<Byte>): Outcome {
    if frames == [] then Nothing
    else if |frames| == 1 && left == [] then Data(frames[0])
    else More
  }

  function Queued(fd: nat, frames: seq<seq<Byte>>, left: seq<Byte>): seq<Packet> {
    if Answer(frames, left) == More then Tagged(fd, frames) else []
  }

  /** A length byte and the next one. */
  lemma SizeFromHeader(header: Byte, buffer: seq<Byte>)
    requires buffer != []
    ensures |[header] + buffer| >= 2 && ReadSize([header] + buffer) == buffer[0] + header * 256
    ensures ([header] + buffer)[2..] == buffer[1..]
  {
  }

  /** An incomplete packet and the chunk that goes on with it. */
  lemma GoOn(size: nat, got: seq<Byte>, buffer: seq<Byte>)
    requires size < 0x10000
    ensures
      var s := [size / 256, size % 256] + got + buffer;
      && |s| >= 2 && ReadSize(s) == size && s[2..] == got + buffer
      && |s| == 2 + |got| + |buffer|
  {
    var s := [size / 256, size % 256] + got + buffer;
    assert s[0] == size / 256 && s[1] == size % 256;
  }

  /** The first frame of a stream with a given length. */
  lemma FirstFrame(s: seq<Byte>, got: seq<Byte>, buffer: seq<Byte>, need: nat)
    requires |s| >= 2 && s[2..] == got + buffer && ReadSize(s) == |got| + need && need <= |buffer|
    ensures HasFrame(s) && s[2..2 + ReadSize(s)] == got + buffer[..need] && s[2 + ReadSize(s)..] == buffer[need..]
  {
    assert s[2..][..|got| + need] == s[2..2 + ReadSize(s)];
    assert (got + buffer)[..|got| + need] == got + buffer[..need];
    assert s[2 + ReadSize(s)..] == s[2..][|got| + need..];
    assert (got + buffer)[|got| + need..] == buffer[need..];
  }

  /** The packets of one connection. */
  function Of(log: seq<Packet>, fd: nat): seq<seq<Byte>> {
    if log == [] then [] else Of(log[..|log| - 1], fd) + if log[|log| - 1].id == fd then [log[|log| - 1].data] else []
  }

  /** The stream of one connection: its chunks, put together. */
  function Stream(chunks: seq<Packet>, fd: nat): seq<Byte> {
    if chunks == [] then []
    else Stream(chunks[..|chunks| - 1], fd) + if chunks[|chunks| - 1].id == fd then chunks[|chunks| - 1].data else []
  }

  predicate Sendable(datas: seq<seq<Byte>>) { forall d :: d in datas ==> |d| < MAXPACK }

  lemma {:induction false} ServedPacked(datas: seq<seq<Byte>>)
    requires Sendable(datas)
    ensures Frames(PackAll(datas)) == datas
  {
    PackedComesOut(datas, []);
    assert PackAll(datas) + [] == PackAll(datas) && Frames([]) == [];
  }

  lemma ServeStart(fd: nat)
    ensures Of([], fd) == Frames(Stream([], fd)) && Leftover(Stream([], fd)) == []
  {
  }

  lemma OfSnoc(log: seq<Packet>, p: Packet, fd: nat)
    ensures Of(log + [p], fd) == Of(log, fd) + if p.id == fd then [p.data] else []
  {
    assert (log + [p])[..|log|] == log;
  }

  lemma {:induction false} OfTagged(log: seq<Packet>, fd: nat, datas: seq<seq<Byte>>, x: nat)
    ensures Of(log + Tagged(fd, datas), x) == Of(log, x) + if x == fd then datas else []
    decreases datas
  {
    if datas == [] {
      assert log + Tagged(fd, datas) == log;
      AppendNone(Of(log, x));
    } else {
      var p := Packet(fd, datas[0]);
      Regroup(log, [p], Tagged(fd, datas[1..]));
      OfSnoc(log, p, x);
      OfTagged(log + [p], fd, datas[1..], x);
      Regroup(Of(log, x), [datas[0]], datas[1..]);
      assert datas == [datas[0]] + datas[1..];
    }
  }

  /** One more chunk: its answer continues the frames of its stream. */
  lemma Served(log0: seq<Packet>, log: seq<Packet>, chunks: seq<Packet>, fd: nat, data: seq<Byte>, x: nat)
    requires Of(log0, x) == Frames(Stream(chunks, x))
    requires
      var s := Leftover(Stream(chunks, fd)) + data;
      log == match Answer(Frames(s), Leftover(s))
        case Nothing => log0
        case Data(d) => log0 + [Packet(fd, d)]
        case More => log0 + Tagged(fd, Frames(s))
    ensures
      var chunks' := chunks + [Packet(fd, data)];
      && Of(log, x) == Frames(Stream(chunks', x))
      && Leftover(Stream(chunks', x)) == if x == fd then Leftover(Leftover(Stream(chunks, fd)) + data) else Leftover(Stream(chunks, x))
  {
    hide Frames, Leftover, Of, Tagged;
    var chunks' := chunks + [Packet(fd, data)];
    assert chunks'[..|chunks|] == chunks;
    var s := Leftover(Stream(chunks, fd)) + data;
    CutAnywhere(Stream(chunks, fd), data);
    OfTagged(log0, fd, Frames(s), x);
    AppendNone(Of(log0, x));
    if Answer(Frames(s), Leftover(s)).Data? {
      OfSnoc(log0, Packet(fd, Frames(s)[0]), x);
      assert Frames(s) == [Frames(s)[0]];
    }
    assert Stream(chunks, x) + [] == Stream(chunks, x);
  }

  class Queue {
    var cap: int
    var head: int
    var tail: int
    const hash: array<seq<Uncomplete>>
    var queue: array<Packet>

    ghost predicate Valid()
      reads this, hash, queue
    {
      && cap == queue.Length > 0 && 0 <= head < cap && 0 <= tail < cap
      && hash.Length == HASHSIZE && forall h :: 0 <= h < HASHSIZE ==> ChainOk(hash[h], h)
    }

    /** The finished packets, oldest first. */
    ghost function Contents(): seq<Packet>
      reads this, queue
      requires cap == queue.Length && 0 <= head < cap && 0 <= tail < cap
    {
      if head <= tail then queue[head..tail] else queue[head..] + queue[..tail]
    }

    /** The incomplete packet of a connection. */
    ghost function Pending(fd: nat): Option<Uncomplete>
      reads hash
      requires hash.Length == HASHSIZE
    {
      Lookup(hash[HashFd(fd)], fd)
    }

    /** The bytes of a connection that are not part of a complete packet yet. */
    ghost function Bytes(fd: nat): seq<Byte>
      reads hash
      requires hash.Length == HASHSIZE
    {
      var uc := Pending(fd);
      if uc.Some? && Partial(uc.value) then Arrived(uc) else []
    }

    lemma PendingOk(fd: nat)
      requires Valid()
      ensures Pending(fd).Some? ==> Partial(Pending(fd).value)
    {
      LookupIs(hash[HashFd(fd)], fd);
    }

    constructor ()
      ensures Valid() && Contents() == [] && fresh(hash) && fresh(queue)
      ensures forall fd :: Pending(fd) == None
    {
      cap, head, tail := QUEUESIZE, 0, 0;
      hash := new seq<Uncomplete>[HASHSIZE](_ => []);
      queue := new Packet[QUEUESIZE];
    }

    /** Takes the incomplete packet of a connection out of its chain. */
    method FindUncomplete(fd: nat) returns (r: Option<Uncomplete>)
      requires Valid()
      modifies hash
      ensures Valid() && r == old(Pending(fd)) && Pending(fd) == None
      ensures r.Some? ==> Partial(r.value) && r.value.id == fd
      ensures forall x :: x != fd ==> Pending(x) == old(Pending(x))
    {
      hide HashFd, ChainOk;
      var h := HashFd(fd);
      ghost var chain := hash[h];
      LookupIs(chain, fd);
      RemoveIs(chain, fd, h);
      PendingOk(fd);
      var front, rest := [], hash[h];
      assert [] + Remove(rest, fd) == Remove(rest, fd);
      while rest != [] && rest[0].id != fd
        modifies {}
        invariant front + Remove(rest, fd) == Remove(chain, fd)
        invariant Lookup(rest, fd) == Lookup(chain, fd)
        decreases |rest|
      {
        assert front + ([rest[0]] + Remove(rest[1..], fd)) == front + [rest[0]] + Remove(rest[1..], fd);
        front := front + [rest[0]];
        rest := rest[1..];
      }
      if rest == [] {
        r := None;
        assert front == Remove(chain, fd);
        NothingRemoved(chain, fd);
        return;
      }
      r := Some(rest[0]);
      hash[h] := front + rest[1..];
    }

    lemma {:induction false} NothingRemoved(chain: seq<Uncomplete>, fd: nat)
      requires Lookup(chain, fd) == None
      ensures Remove(chain, fd) == chain
    {
      if chain != [] {
        NothingRemoved(chain[1..], fd);
        assert chain == [chain[0]] + chain[1..];
      }
    }

    method SaveUncomplete(uc: Uncomplete)
      requires Valid() && Pending(uc.id) == None && Partial(uc)
      modifies hash
      ensures Valid() && Pending(uc.id) == Some(uc)
      ensures forall x :: x != uc.id ==> Pending(x) == old(Pending(x))
    {
      hide HashFd, ChainOk;
      var h := HashFd(uc.id);
      AddIs(hash[h], uc, h);
      hash[h] := [uc] + hash[h];
    }

    /** Makes room for more packets, in the same order. */
    method ExpandQueue()
      requires Valid() && head == tail
      modifies `cap, `head, `tail, `queue
      ensures Valid() && fresh(queue) && Contents() == old(queue[head..] + queue[..tail])
    {
      ghost var full := queue[head..] + queue[..tail];
      var nq := new Packet[cap + QUEUESIZE];
      var i := 0;
      while i < cap
        modifies nq
        invariant 0 <= i <= cap
        invariant forall k :: 0 <= k < i ==> nq[k] == full[k]
      {
        RingIndex(head, i, cap);
        nq[i] := queue[(head + i) % cap];
        i := i + 1;
      }
      assert nq[..cap] == full;
      head := 0;
      tail := cap;
      cap := cap + QUEUESIZE;
      queue := nq;
    }

    method PushData(fd: nat, data: seq<Byte>)
      requires Valid()
      modifies `cap, `head, `tail, `queue, queue
      ensures Valid() && (queue == old(queue) || fresh(queue))
      ensures Contents() == old(Contents()) + [Packet(fd, data)]
    {
      hide ChainOk;
      queue[tail] := Packet(fd, data);
      tail := tail + 1;
      if tail >= cap { tail := tail - cap; }
      if head == tail { ExpandQueue(); }
    }

    method PopData() returns (r: Option<Packet>)
      requires Valid()
      modifies `head
      ensures Valid()
      ensures if old(Contents()) == [] then r == None && Contents() == []
              else r == Some(old(Contents())[0]) && Contents() == old(Contents())[1..]
    {
      hide ChainOk;
      if head == tail { return None; }
      r := Some(queue[head]);
      head := head + 1;
      if head >= cap { head := 0; }
    }

    /** Queues the packets of a buffer and keeps the rest. */
    method PushMore(fd: nat, buffer: seq<Byte>)
      requires Valid() && Pending(fd) == None && buffer != []
      modifies `cap, `head, `tail, `queue, queue, hash
      ensures Valid() && (queue == old(queue) || fresh(queue))
      ensures Contents() == old(Contents()) + Tagged(fd, Frames(buffer))
      ensures Bytes(fd) == Leftover(buffer)
      ensures forall x :: x != fd ==> Pending(x) == old(Pending(x))
      decreases |buffer|
    {
      hide ChainOk, HashFd, Frames, Leftover, Lookup, Contents, Tagged;
      FramesStep(buffer);
      TaggedStep(fd, Frames(buffer));
      ghost var before := Contents();
      AppendNone(before);
      if |buffer| == 1 {
        SaveUncomplete(Uncomplete(fd, 0, [], -1, buffer[0]));
        return;
      }
      var packSize := ReadSize(buffer);
      var rest := buffer[2..];
      if |rest| < packSize {
        SaveUncomplete(Uncomplete(fd, packSize, rest, |rest|, 0));
        ArrivedIs(buffer);
        return;
      }
      PushData(fd, rest[..packSize]);
      assert rest[..packSize] == buffer[2..2 + packSize] && rest[packSize..] == buffer[2 + packSize..];
      Regroup(before, [Packet(fd, rest[..packSize])], Tagged(fd, Frames(rest[packSize..])));
      if packSize < |rest| {
        PushMore(fd, rest[packSize..]);
      } else {
        FramesStep(rest[packSize..]);
        TaggedStep(fd, []);
        AppendNone(before + [Packet(fd, rest[..packSize])]);
      }
    }

    /** Takes in a chunk of the stream of a connection. */
    method FilterData(fd: nat, buffer: seq<Byte>) returns (r: Outcome)
      requires Valid() && buffer != []
      modifies `cap, `head, `tail, `queue, queue, hash
      ensures Valid() && (queue == old(queue) || fresh(queue))
      ensures
        var s := old(Bytes(fd)) + buffer;
        && r == Answer(Frames(s), Leftover(s)) && Bytes(fd) == Leftover(s)
        && Contents() == old(Contents()) + Queued(fd, Frames(s), Leftover(s))
      ensures forall x :: x != fd ==> Pending(x) == old(Pending(x))
    {
      hide ChainOk, HashFd, Frames, Leftover, Lookup, Contents, Tagged;
      PendingOk(fd);
      ghost var before := Contents();
      AppendNone(before);
      ghost var s := Arrived(Pending(fd)) + buffer;
      FramesStep(s);
      var uc := FindUncomplete(fd);
      if uc.Some? {
        r := FillUncomplete(uc.value, buffer, s);
      } else {
        assert s == buffer;
        r := StartPacket(fd, buffer);
      }
    }

    /** The chunk goes on with an incomplete packet. */
    method FillUncomplete(uc: Uncomplete, buffer: seq<Byte>, ghost s: seq<Byte>) returns (r: Outcome)
      requires Valid() && buffer != [] && Partial(uc) && Pending(uc.id) == None && s == Arrived(Some(uc)) + buffer
      modifies `cap, `head, `tail, `queue, queue, hash
      ensures Valid() && (queue == old(queue) || fresh(queue))
      ensures r == Answer(Frames(s), Leftover(s)) && Bytes(uc.id) == Leftover(s)
      ensures Contents() == old(Contents()) + Queued(uc.id, Frames(s), Leftover(s))
      ensures forall x :: x != uc.id ==> Pending(x) == old(Pending(x))
    {
      hide ChainOk, HashFd, Frames, Leftover, Lookup, Contents, Tagged;
      ghost var before := Contents();
      AppendNone(before);
      var size, read, got, rest := uc.size, uc.read, uc.buffer, buffer;
      if uc.read < 0 {
        SizeFromHeader(uc.header, buffer);
        size := buffer[0] as int + uc.header as int * 256;
        rest := buffer[1..];
        got, read := [], 0;
        assert s[2..] == got + rest;
      } else {
        GoOn(size, got, buffer);
      }
      assert s[2..] == got + rest && ReadSize(s) == size && |got| == read;
      FramesStep(s);
      var need := size - read;
      if |rest| < need {
        SaveUncomplete(Uncomplete(uc.id, size, got + rest, read + |rest|, 0));
        ArrivedIs(s);
        return Nothing;
      }
      FirstFrame(s, got, rest, need);
      var data := got + rest[..need];
      rest := rest[need..];
      FramesStep(rest);
      TaggedStep(uc.id, Frames(s));
      if rest == [] {
        return Data(data);
      }
      PushData(uc.id, data);
      Regroup(before, [Packet(uc.id, data)], Tagged(uc.id, Frames(rest)));
      PushMore(uc.id, rest);
      MoreToCome(data, rest);
      r := More;
    }

    /** Something left of a stream is a packet or a leftover. */
    lemma MoreToCome(data: seq<Byte>, rest: seq<Byte>)
      requires rest != []
      ensures Answer([data] + Frames(rest), Leftover(rest)) == More
    {
    }

    /** The chunk starts a packet. */
    method StartPacket(fd: nat, buffer: seq<Byte>) returns (r: Outcome)
      requires Valid() && buffer != [] && Pending(fd) == None
      modifies `cap, `head, `tail, `queue, queue, hash
      ensures Valid() && (queue == old(queue) || fresh(queue))
      ensures r == Answer(Frames(buffer), Leftover(buffer)) && Bytes(fd) == Leftover(buffer)
      ensures Contents() == old(Contents()) + Queued(fd, Frames(buffer), Leftover(buffer))
      ensures forall x :: x != fd ==> Pending(x) == old(Pending(x))
    {
      hide ChainOk, HashFd, Frames, Leftover, Lookup, Contents, Tagged;
      ghost var before := Contents();
      AppendNone(before);
      FramesStep(buffer);
      if |buffer| == 1 {
        SaveUncomplete(Uncomplete(fd, 0, [], -1, buffer[0]));
        return Nothing;
      }
      var packSize := ReadSize(buffer);
      var rest := buffer[2..];
      if |rest| < packSize {
        SaveUncomplete(Uncomplete(fd, packSize, rest, |rest|, 0));
        ArrivedIs(buffer);
        return Nothing;
      }
      FirstFrame(buffer, [], rest, packSize);
      assert [] + rest[..packSize] == rest[..packSize];
      FramesStep(rest[packSize..]);
      TaggedStep(fd, Frames(buffer));
      if |rest| == packSize {
        assert rest[packSize..] == [] && rest[..packSize] == rest;
        return Data(rest);
      }
      PushData(fd, rest[..packSize]);
      Regroup(before, [Packet(fd, rest[..packSize])], Tagged(fd, Frames(rest[packSize..])));
      PushMore(fd, rest[packSize..]);
      MoreToCome(rest[..packSize], rest[packSize..]);
      r := More;
    }

    /** Empties the queue. */
    method PopAll() returns (packets: seq<Packet>)
      requires Valid()
      modifies `head
      ensures Valid() && packets == old(Contents()) && Contents() == []
      ensures forall fd :: Bytes(fd) == old(Bytes(fd))
    {
      hide ChainOk, HashFd, Contents;
      packets := [];
      ghost var all := Contents();
      var p := PopData();
      while p.Some?
        modifies `head
        invariant Valid() && queue == old(queue)
        invariant if p == None then Contents() == [] && packets == all else all == packets + ([p.value] + Contents())
        decreases |Contents()| + if p.Some? then 1 else 0
      {
        packets := packets + [p.value];
        ghost var rest := Contents();
        assert all == packets + rest;
        p := PopData();
        assert rest == [] || rest == [rest[0]] + rest[1..];
      }
    }

    /** Chunks of any connections in any order: the packets of each connection are the
        frames of its own stream, in order. */
    method Serve(chunks: seq<Packet>) returns (log: seq<Packet>)
      requires Valid() && Contents() == [] && forall fd :: Bytes(fd) == []
      requires forall i :: 0 <= i < |chunks| ==> chunks[i].data != []
      modifies this, queue, hash
      ensures forall fd :: Of(log, fd) == Frames(Stream(chunks, fd))
      ensures forall fd, datas :: Sendable(datas) && Stream(chunks, fd) == PackAll(datas) ==> Of(log, fd) == datas
    {
      hide ChainOk, HashFd, Contents, Frames, Leftover, Stream, Of, Arrived, Lookup;
      log := [];
      forall fd { ServeStart(fd); }
      for i := 0 to |chunks|
        invariant Valid() && Contents() == [] && (queue == old(queue) || fresh(queue))
        invariant forall fd :: Of(log, fd) == Frames(Stream(chunks[..i], fd)) && Bytes(fd) == Leftover(Stream(chunks[..i], fd))
      {
        var fd, data := chunks[i].id, chunks[i].data;
        ghost var log0, s := log, Bytes(fd) + data;
        var r := FilterData(fd, data);
        assert [] + Queued(fd, Frames(s), Leftover(s)) == Queued(fd, Frames(s), Leftover(s));
        if r.Data? {
          log := log + [Packet(fd, r.data)];
        } else if r.More? {
          var packets := PopAll();
          log := log + packets;
        }
        assert chunks[..i + 1] == chunks[..i] + [chunks[i]];
        forall x
          ensures Of(log, x) == Frames(Stream(chunks[..i + 1], x)) && Bytes(x) == Leftover(Stream(chunks[..i + 1], x))
        {
          Served(log0, log, chunks[..i], fd, data, x);
        }
      }
      assert chunks[..|chunks|] == chunks;
      forall fd, datas | Sendable(datas) && Stream(chunks, fd) == PackAll(datas) ensures Of(log, fd) == datas {
        ServedPacked(datas);
      }
    }
  }
}
