/** The two write queues of a TCP socket: direct writes, partial writes, two priorities,
    and a half-closed state that waits for the queues to drain. */
module SocketWrite {
  import opened Sequences

  type Byte = bv8

  datatype Message = Message(low: bool, data: seq<Byte>)

  /** A queued message and how much of it has been written. */
  datatype WriteBuffer = WriteBuffer(msg: Message, ptr: nat)

  datatype SocketType = Invalid | PListen | Listen | Connecting | Connected | HalfClose | PAccept

  /** What a call of write can give. A count above what was asked for is cut down. */
  datatype WriteResult = Wrote(n: nat) | Interrupted | Again | Failed

  predicate Fits(b: WriteBuffer) { b.ptr <= |b.msg.data| }

  /** What is left to write of a message. */
  function Rest(b: WriteBuffer): seq<Byte> { if Fits(b) then b.msg.data[b.ptr..] else [] }

  function Messages(list: seq<WriteBuffer>): (r: seq<Message>)
    ensures |r| == |list| && forall i :: 0 <= i < |list| ==> r[i] == list[i].msg
  {
    seq(|list|, i requires 0 <= i < |list| => list[i].msg)
  }

  function Flatten(msgs: seq<Message>): seq<Byte> {
    if msgs == [] then [] else Flatten(msgs[..|msgs| - 1]) + msgs[|msgs| - 1].data
  }

  function Unsent(list: seq<WriteBuffer>): int {
    if list == [] then 0 else |list[0].msg.data| - list[0].ptr + Unsent(list[1..])
  }

  function Select(msgs: seq<Message>, low: bool): seq<Message> {
    if msgs == [] then []
    else (if msgs[0].low == low then [msgs[0]] else []) + Select(msgs[1..], low)
  }

  lemma {:induction false} SelectConcat(a: seq<Message>, b: seq<Message>, low: bool)
    ensures Select(a + b, low) == Select(a, low) + Select(b, low)
  {
    if a == [] {
      assert a + b == b;
    } else {
      SelectConcat(a[1..], b, low);
      assert (a + b)[0] == a[0] && (a + b)[1..] == a[1..] + b;
      Regroup(if a[0].low == low then [a[0]] else [], Select(a[1..], low), Select(b, low));
    }
  }

  lemma {:induction false} SelectNone(a: seq<Message>, low: bool)
    requires forall m :: m in a ==> m.low != low
    ensures Select(a, low) == []
  {
    if a != [] { SelectNone(a[1..], low); }
  }

  lemma {:induction false} UnsentSnoc(a: seq<WriteBuffer>, b: WriteBuffer)
    ensures Unsent(a + [b]) == Unsent(a) + |b.msg.data| - b.ptr
  {
    if a == [] {
      assert a + [b] == [b];
    } else {
      assert (a + [b])[1..] == a[1..] + [b];
      UnsentSnoc(a[1..], b);
    }
  }

  /** The bytes of the first message that are already on the wire. */
  function Begun(list: seq<WriteBuffer>): seq<Byte>
    requires list != [] ==> Fits(list[0])
  {
    if list == [] then [] else list[0].msg.data[..list[0].ptr]
  }

  /** Only the first message of the high list can be partly written. */
  predicate Fresh(high: seq<WriteBuffer>, low: seq<WriteBuffer>) {
    && (high != [] ==> Fits(high[0]))
    && (forall i :: 0 < i < |high| ==> high[i].ptr == 0)
    && (forall b :: b in low ==> b.ptr == 0 && b.msg.low)
  }

  predicate OnlyLow(list: seq<WriteBuffer>) { forall b :: b in list ==> b.msg.low }

  /** What was accepted is what was sent and what is queued, priority by priority, in order. */
  ghost predicate InOrder(accepted: seq<Message>, done: seq<Message>, high: seq<WriteBuffer>, low: seq<WriteBuffer>) {
    forall p :: Select(accepted, p) == Select(done, p) + Select(Messages(high), p) + Select(Messages(low), p)
  }

  /** The wire holds whole messages, then the begun part of the next one. */
  ghost predicate Consistent(wire: seq<Byte>, accepted: seq<Message>, done: seq<Message>, wbSize: int,
                             high: seq<WriteBuffer>, low: seq<WriteBuffer>)
  {
    && Fresh(high, low)
    && wire == Flatten(done) + Begun(high)
    && wbSize == Unsent(high) + Unsent(low)
    && InOrder(accepted, done, high, low)
  }

  /** A write that leaves something of the first message. */
  lemma PartWritten(wire: seq<Byte>, accepted: seq<Message>, done: seq<Message>, wbSize: int,
                    list: seq<WriteBuffer>, rest: seq<WriteBuffer>, n: nat)
    requires Consistent(wire, accepted, done, wbSize, list, rest) && list != [] && n <= |Rest(list[0])|
    ensures
      var b := list[0];
      Consistent(wire + Rest(b)[..n], accepted, done, wbSize - n, [b.(ptr := b.ptr + n)] + list[1..], rest)
  {
    hide Select, Flatten, InOrder, Messages, Unsent, Rest;
    var b := list[0];
    var b' := b.(ptr := b.ptr + n);
    var list' := [b'] + list[1..];
    assert list'[1..] == list[1..];
    TwoParts(b);
    BegunMore(b, n);
    UnsentFirst(list);
    UnsentFirst(list');
    Regroup(Flatten(done), Begun(list), Rest(b)[..n]);
    SameMessages(accepted, done, list, list', rest);
  }

  lemma BegunMore(b: WriteBuffer, n: nat)
    requires Fits(b) && n <= |Rest(b)|
    ensures Fits(b.(ptr := b.ptr + n)) && b.msg.data[..b.ptr + n] == b.msg.data[..b.ptr] + Rest(b)[..n]
  {
  }

  lemma UnsentFirst(list: seq<WriteBuffer>)
    requires list != []
    ensures Unsent(list) == |list[0].msg.data| - list[0].ptr + Unsent(list[1..])
  {
  }

  lemma SameMessages(accepted: seq<Message>, done: seq<Message>, list: seq<WriteBuffer>, list': seq<WriteBuffer>,
                     rest: seq<WriteBuffer>)
    requires InOrder(accepted, done, list, rest) && |list'| == |list| && forall i :: 0 <= i < |list| ==> list'[i].msg == list[i].msg
    ensures InOrder(accepted, done, list', rest)
  {
    hide Select;
    assert Messages(list') == Messages(list);
  }

  /** A write that finishes the first message. */
  lemma WholeWritten(wire: seq<Byte>, accepted: seq<Message>, done: seq<Message>, wbSize: int,
                     list: seq<WriteBuffer>, rest: seq<WriteBuffer>)
    requires Consistent(wire, accepted, done, wbSize, list, rest) && list != []
    ensures
      var b := list[0];
      Consistent(wire + Rest(b), accepted, done + [b.msg], wbSize - |Rest(b)|, list[1..], rest)
  {
    hide Select, InOrder, Messages, Flatten, Rest;
    var b := list[0];
    FirstDone(accepted, done, b, list, rest);
    FlattenSnoc(done, b.msg);
    TwoParts(b);
    Join(wire, Flatten(done), Begun(list), Rest(b), b.msg.data);
    assert Begun(list[1..]) == [];
  }

  lemma TwoParts(b: WriteBuffer)
    requires Fits(b)
    ensures b.msg.data == b.msg.data[..b.ptr] + Rest(b) && |Rest(b)| == |b.msg.data| - b.ptr
  {
  }

  lemma Join(w: seq<Byte>, f: seq<Byte>, g: seq<Byte>, r: seq<Byte>, d: seq<Byte>)
    requires w == f + g && d == g + r
    ensures w + r == f + d + []
  {
  }

  lemma FlattenSnoc(done: seq<Message>, m: Message)
    ensures Flatten(done + [m]) == Flatten(done) + m.data
  {
    assert (done + [m])[..|done|] == done;
  }

  lemma FirstDone(accepted: seq<Message>, done: seq<Message>, b: WriteBuffer, list: seq<WriteBuffer>, rest: seq<WriteBuffer>)
    requires InOrder(accepted, done, list, rest) && list != [] && b == list[0]
    ensures InOrder(accepted, done + [b.msg], list[1..], rest)
  {
    hide Select;
    assert Messages(list) == [b.msg] + Messages(list[1..]);
    forall p ensures Select(accepted, p) ==
      Select(done + [b.msg], p) + Select(Messages(list[1..]), p) + Select(Messages(rest), p)
    {
      SelectConcat(done, [b.msg], p);
      SelectConcat([b.msg], Messages(list[1..]), p);
      Regroup(Select(done, p), Select([b.msg], p), Select(Messages(list[1..]), p));
    }
  }

  /** A message accepted into the high queue. */
  lemma AppendedHigh(wire: seq<Byte>, accepted: seq<Message>, done: seq<Message>, wbSize: int,
                     high: seq<WriteBuffer>, low: seq<WriteBuffer>, m: Message)
    requires Consistent(wire, accepted, done, wbSize, high, low) && (m.low ==> low == [])
    ensures Consistent(wire, accepted + [m], done, wbSize + |m.data|, high + [WriteBuffer(m, 0)], low)
  {
    hide Select, Flatten;
    var b := WriteBuffer(m, 0);
    UnsentSnoc(high, b);
    assert Messages(high + [b]) == Messages(high) + [m];
    assert Begun(high + [b]) == Begun(high);
    forall p ensures Select(accepted + [m], p) ==
      Select(done, p) + Select(Messages(high + [b]), p) + Select(Messages(low), p)
    {
      SelectConcat(accepted, [m], p);
      SelectConcat(Messages(high), [m], p);
      if p == m.low {
        SelectNone(Messages(low), p);
      } else {
        SelectNone([m], p);
      }
      Insert(Select(done, p), Select(Messages(high), p), Select([m], p), Select(Messages(low), p));
    }
  }

  lemma Insert(a: seq<Message>, b: seq<Message>, m: seq<Message>, c: seq<Message>)
    requires m == [] || c == []
    ensures a + b + c + m == a + (b + m) + c
  {
  }

  lemma AppendedLow(wire: seq<Byte>, accepted: seq<Message>, done: seq<Message>, wbSize: int,
                    high: seq<WriteBuffer>, low: seq<WriteBuffer>, m: Message)
    requires Consistent(wire, accepted, done, wbSize, high, low) && m.low
    ensures Consistent(wire, accepted + [m], done, wbSize + |m.data|, high, low + [WriteBuffer(m, 0)])
  {
    hide Select, Flatten;
    var b := WriteBuffer(m, 0);
    UnsentSnoc(low, b);
    assert Messages(low + [b]) == Messages(low) + [m];
    forall p ensures Select(accepted + [m], p) ==
      Select(done, p) + Select(Messages(high), p) + Select(Messages(low + [b]), p)
    {
      SelectConcat(accepted, [m], p);
      SelectConcat(Messages(low), [m], p);
      Regroup(Select(done, p) + Select(Messages(high), p), Select(Messages(low), p), Select([m], p));
    }
  }

  /** With an empty high queue the low queue can be served in its place, and what is left of
      it goes back: its first message to the high queue when it has been begun. */
  lemma LowAsHigh(wire: seq<Byte>, accepted: seq<Message>, done: seq<Message>, wbSize: int, low: seq<WriteBuffer>)
    requires Consistent(wire, accepted, done, wbSize, [], low)
    ensures Consistent(wire, accepted, done, wbSize, low, [])
  {
    hide Select, Flatten;
    assert low != [] ==> low[0] in low;
    assert forall i :: 0 < i < |low| ==> low[i] in low;
    SelectEmpty();
  }

  lemma SelectEmpty()
    ensures forall p :: Select(Messages([]), p) == []
  {
  }

  lemma HighAsLow(wire: seq<Byte>, accepted: seq<Message>, done: seq<Message>, wbSize: int, low: seq<WriteBuffer>)
    requires Consistent(wire, accepted, done, wbSize, low, []) && OnlyLow(low)
    ensures low == [] || low[0].ptr == 0 ==> Consistent(wire, accepted, done, wbSize, [], low)
    ensures low != [] ==> Consistent(wire, accepted, done, wbSize, [low[0]], low[1..])
  {
    hide Select, Flatten, InOrder, Messages;
    AllOrTail(accepted, done, low);
    if low != [] {
      assert [low[0]][1..] == [];
      TailFresh(low);
    }
  }

  lemma TailFresh(low: seq<WriteBuffer>)
    requires low != [] && OnlyLow(low) && forall i :: 0 < i < |low| ==> low[i].ptr == 0
    ensures forall b :: b in low[1..] ==> b.ptr == 0 && b.msg.low
  {
    forall b | b in low[1..] ensures b.ptr == 0 && b.msg.low {
      var i :| 0 <= i < |low[1..]| && low[1..][i] == b;
      assert b == low[i + 1] && b in low;
    }
  }

  /** The order is the same when the queue is seen as one of low priority, or its head as one of high. */
  lemma AllOrTail(accepted: seq<Message>, done: seq<Message>, low: seq<WriteBuffer>)
    requires InOrder(accepted, done, low, [])
    ensures InOrder(accepted, done, [], low)
    ensures low != [] ==> InOrder(accepted, done, [low[0]], low[1..])
  {
    hide Select;
    SelectEmpty();
    if low != [] {
      assert Messages(low) == [low[0].msg] + Messages(low[1..]);
      assert Messages([low[0]]) == [low[0].msg];
      forall p ensures Select(accepted, p) == Select(done, p) + Select([low[0].msg], p) + Select(Messages(low[1..]), p) {
        SelectConcat([low[0].msg], Messages(low[1..]), p);
        Regroup(Select(done, p), Select([low[0].msg], p), Select(Messages(low[1..]), p));
      }
    }
  }

  // What the operations do, as functions.

  /** What becomes of a list that is written: what is left of it and of the answers, and the bytes
      that went out before it was empty, a write took less than it was given, or one failed. */
  datatype Sent = Sent(left: seq<WriteBuffer>, more: seq<WriteResult>, bytes: seq<Byte>, failed: bool)

  function Sending(list: seq<WriteBuffer>, results: seq<WriteResult>): (r: Sent)
    ensures |r.left| <= |list| && (r.failed ==> Failed in results)
    ensures forall x :: x in r.more ==> x in results
    decreases |list|, |results|
  {
    if list == [] || results == [] then Sent(list, results, [], false)
    else
      match results[0]
      case Interrupted => Sending(list, results[1..])
      case Again => Sent(list, results[1..], [], false)
      case Failed => Sent(list, results[1..], [], true)
      case Wrote(n) =>
        var rest := Rest(list[0]);
        if n < |rest| then Sent([list[0].(ptr := list[0].ptr + n)] + list[1..], results[1..], rest[..n], false)
        else Prefixed(rest, Sending(list[1..], results[1..]))
  }

  function Prefixed(bytes: seq<Byte>, s: Sent): Sent { s.(bytes := bytes + s.bytes) }

  /** The fields of a socket, and the bytes on the wire. */
  datatype View = View(kind: SocketType, high: seq<WriteBuffer>, low: seq<WriteBuffer>, wbSize: int, polled: bool, wire: seq<Byte>)

  function Closed(v: View): View { if v.kind == Invalid then v else v.(kind := Invalid, high := [], low := []) }

  function Out(v: View, bytes: seq<Byte>): View { v.(wbSize := v.wbSize - |bytes|, wire := v.wire + bytes) }

  /** A write event. */
  function Flushed(v: View, results: seq<WriteResult>): View {
    var h := Sending(v.high, results);
    var v1 := Out(v, h.bytes).(high := h.left);
    if h.failed then Closed(v1)
    else if h.left != [] then v1
    else if v.low == [] then
      var v2 := v1.(polled := false);
      if v.kind == HalfClose then Closed(v2) else v2
    else
      var l := Sending(v.low, h.more);
      var v2 := Out(v1, l.bytes).(low := l.left);
      if l.failed then Closed(v2)
      else if l.left != [] && l.left[0].ptr != 0 then v2.(high := [l.left[0]], low := l.left[1..])
      else v2
  }

  /** True when a message is written without being queued. */
  predicate Direct(v: View) { v.kind == Connected && v.high == [] && v.low == [] }

  /** Sending a message. */
  function Posted(v: View, m: Message, result: WriteResult): View {
    if v.kind !in {Connecting, Connected} then v
    else if Direct(v) then
      var n := if result.Wrote? then result.n else 0;
      if result == Failed then Closed(v)
      else if n >= |m.data| then v.(wire := v.wire + m.data)
      else v.(high := [WriteBuffer(m, n)], wbSize := v.wbSize + (|m.data| - n), polled := true, wire := v.wire + m.data[..n])
    else if m.low then v.(low := v.low + [WriteBuffer(m, 0)], wbSize := v.wbSize + |m.data|)
    else v.(high := v.high + [WriteBuffer(m, 0)], wbSize := v.wbSize + |m.data|)
  }

  predicate Empty(v: View) { v.high == [] && v.low == [] }

  /** Closing on request. */
  function ClosedWith(v: View, results: seq<WriteResult>): View {
    var v1 := if v.kind == Invalid || Empty(v) then v else Flushed(v, results);
    if v1.kind == Invalid || Empty(v1) then Closed(v1) else v1.(kind := HalfClose)
  }

  /** What can happen to a socket, with the answers of the system. */
  datatype Event =
    | Send(m: Message, result: WriteResult)
    | CanWrite(results: seq<WriteResult>)
    | Close(results: seq<WriteResult>)
    | Connect(ok: bool)
    | Begin
    | Lost

  /** A socket after an event. Events that its state does not allow change nothing. */
  function Step(v: View, e: Event): View {
    match e
    case Send(m, result) => Posted(v, m, result)
    case CanWrite(results) => if v.kind in {Connected, HalfClose} then Flushed(v, results) else v
    case Close(results) => ClosedWith(v, results)
    case Connect(ok) =>
      if v.kind != Connecting then v
      else if !ok then Closed(v)
      else v.(kind := Connected, polled := v.polled && !Empty(v))
    case Begin => if v.kind == PAccept then v.(kind := Connected) else if v.kind == PListen then v.(kind := Listen) else v
    case Lost => Closed(v)
  }

  function RunAll(v: View, events: seq<Event>): View
    decreases |events|
  {
    if events == [] then v else Step(RunAll(v, events[..|events| - 1]), events[|events| - 1])
  }

  /** The message that an event hands to the socket, if the socket takes it. */
  function Taken(v: View, e: Event): seq<Message> {
    if e.Send? && v.kind in {Connecting, Connected} && !(Direct(v) && e.result == Failed) then [e.m] else []
  }

  function AllTaken(v: View, events: seq<Event>): seq<Message>
    decreases |events|
  {
    if events == [] then []
    else
      var before := events[..|events| - 1];
      AllTaken(v, before) + Taken(RunAll(v, before), events[|events| - 1])
  }

  /** Something goes wrong: a write or the connection fails, or the peer is lost. */
  predicate Fails(e: Event) {
    match e
    case Send(_, result) => result == Failed
    case CanWrite(results) => Failed in results
    case Close(results) => Failed in results
    case Connect(ok) => !ok
    case Begin => false
    case Lost => true
  }

  class Socket {
    var kind: SocketType
    var high: seq<WriteBuffer>
    var low: seq<WriteBuffer>
    var wbSize: int
    var polled: bool                    // write events are on
    ghost var wire: seq<Byte>           // every byte handed to the network
    ghost var accepted: seq<Message>
    ghost var done: seq<Message>        // messages written completely, in wire order
    ghost var aborted: bool             // closed by an error or by the peer

    ghost predicate Queued(high: seq<WriteBuffer>, low: seq<WriteBuffer>)
      reads `wire, `accepted, `done, `wbSize
    {
      Consistent(wire, accepted, done, wbSize, high, low)
    }

    /** An open socket has its queues in order, and write events are on when it waits for them; a
        closed one has empty queues, and unless it was aborted everything it accepted is on the wire. */
    ghost predicate Valid()
      reads this
    {
      Tidy() && (kind == Connecting ==> polled)
    }

    ghost predicate Tidy()
      reads this
    {
      && (kind != Invalid ==> Queued(high, low) && !aborted)
      && (kind == Invalid ==> high == [] && low == [] && (!aborted ==> AllSent()))
      && (kind == HalfClose || (kind in {Connecting, Connected} && (high != [] || low != [])) ==> polled)
      && (kind in {PListen, Listen, PAccept} ==> high == [] && low == [])
    }

    ghost predicate AllSent()
      reads this
    {
      wire == Flatten(done) && forall p :: Select(done, p) == Select(accepted, p)
    }

    ghost function Now(): View
      reads this
    {
      View(kind, high, low, wbSize, polled, wire)
    }

    constructor (kind: SocketType)
      requires kind in {Connecting, Connected, PAccept, PListen}
      ensures Valid() && Now() == View(kind, [], [], 0, kind == Connecting, []) && accepted == [] && !aborted
    {
      this.kind := kind;
      high, low, wbSize := [], [], 0;
      polled := kind == Connecting;
      wire, accepted, done, aborted := [], [], [], false;
    }

    /** Drops the queues and closes. `abort` says that it is not the end of an orderly close. */
    method ForceClose(ghost abort: bool)
      modifies this
      ensures Now() == Closed(old(Now())) && accepted == old(accepted) && done == old(done)
      ensures aborted == (old(aborted) || (abort && old(kind) != Invalid))
    {
      if kind == Invalid { return; }
      high, low := [], [];
      aborted := aborted || abort;
      kind := Invalid;
    }

    /** Hands the first `n` bytes to the network: all of `data`, if it asks for more. */
    method Write(data: seq<Byte>, n: nat) returns (sz: nat)
      modifies `wire
      ensures sz == (if n <= |data| then n else |data|) && wire == old(wire) + data[..sz]
    {
      sz := if n <= |data| then n else |data|;
      wire := wire + data[..sz];
    }

    /** One write of the first message of a list. */
    method WriteHead(list: seq<WriteBuffer>, ghost rest: seq<WriteBuffer>, n: nat)
      returns (left: seq<WriteBuffer>, part: bool)
      requires Queued(list, rest) && list != []
      modifies `wire, `wbSize, `done
      ensures Queued(left, rest) && (OnlyLow(list) ==> OnlyLow(left))
      ensures
        var data := Rest(list[0]);
        var bytes := if n < |data| then data[..n] else data;
        && part == (n < |data|)
        && left == (if part then [list[0].(ptr := list[0].ptr + n)] + list[1..] else list[1..])
        && wire == old(wire) + bytes && wbSize == old(wbSize) - |bytes|
    {
      hide Consistent;
      var b := list[0];
      HeadFits(list, rest);
      ghost var wire0 := wire;
      var sz := Write(Rest(b), n);
      part := sz != |Rest(b)|;
      if part {
        PartWritten(wire0, accepted, done, wbSize, list, rest, sz);
        wbSize := wbSize - sz;
        left := [b.(ptr := b.ptr + sz)] + list[1..];
      } else {
        assert Rest(b)[..sz] == Rest(b);
        WholeWritten(wire0, accepted, done, wbSize, list, rest);
        wbSize := wbSize - sz;
        done := done + [b.msg];
        left := list[1..];
      }
    }

    /** Writes the messages of a list until it is empty, a write takes less than it was given, or
        the system says to wait. `results` are the answers of the system, in order; when they run out
        it says to wait. */
    method SendList(list: seq<WriteBuffer>, ghost rest: seq<WriteBuffer>, results: seq<WriteResult>)
      returns (left: seq<WriteBuffer>, more: seq<WriteResult>, closed: bool)
      requires Valid() && kind != Invalid && Queued(list, rest)
      modifies this
      ensures
        var s := Sending(list, results);
        var now := Out(old(Now()), s.bytes);
        && left == s.left && more == s.more && closed == s.failed
        && Now() == if closed then Closed(now) else now
      ensures accepted == old(accepted) && aborted == closed
      ensures if closed then Valid() else Queued(left, rest)
      ensures OnlyLow(list) ==> OnlyLow(left)
    {
      hide Consistent, Rest;
      left, more, closed := list, results, false;
      ghost var sent: seq<Byte> := [];
      NothingSent(Sending(list, results), wire);
      while left != []
        invariant !aborted && Queued(left, rest) && !closed && accepted == old(accepted)
        invariant Now() == Out(old(Now()), sent)
        invariant Sending(list, results) == Prefixed(sent, Sending(left, more))
        invariant OnlyLow(list) ==> OnlyLow(left)
        decreases |left|, |more|
      {
        NothingMore(sent);
        if more == [] { return; }
        var result := more[0];
        ghost var goes := Sending(left, more);
        more := more[1..];
        match result
        case Interrupted =>
        case Again => return;
        case Failed =>
          ForceClose(true);
          closed := true;
          return;
        case Wrote(n) =>
          var part;
          ghost var data := Rest(left[0]);
          ghost var now := wire;
          left, part := WriteHead(left, rest, n);
          SentMore(old(wire), sent, if part then data[..n] else data, Sending(left, more));
          sent := sent + if part then data[..n] else data;
          if part { return; }
      }
      NothingMore(sent);
    }

    lemma HeadFits(list: seq<WriteBuffer>, rest: seq<WriteBuffer>)
      requires Queued(list, rest) && list != []
      ensures Fits(list[0])
    {
    }

    /** True when the first message of a list has been begun. */
    predicate Uncomplete(list: seq<WriteBuffer>) { list != [] && list[0].ptr != 0 }

    lemma LowStartsFresh()
      requires Queued(high, low)
      ensures !Uncomplete(low) && OnlyLow(low)
    {
    }

    /** A write event: the high queue first, then the low queue; a half-closed socket with nothing
        left closes. It is aborted by a failed write only. */
    method SendBuffer(results: seq<WriteResult>) returns (closed: bool)
      requires Valid() && kind in {Connecting, Connected, HalfClose}
      modifies this
      ensures Now() == Flushed(old(Now()), results) && accepted == old(accepted) && closed == (kind == Invalid)
      ensures Tidy() && (old(kind) != Connecting || high != [] || low != [] ==> Valid())
      ensures aborted ==> Failed in results
    {
      hide Consistent, Sending;
      LowStartsFresh();
      assert !Uncomplete(low);
      var left, more;
      left, more, closed := SendList(high, low, results);
      if closed { return; }
      high := left;
      if high == [] {
        if low != [] {
          LowAsHigh(wire, accepted, done, wbSize, low);
          left, more, closed := SendList(low, [], more);
          if closed { return; }
          low := left;
          HighAsLow(wire, accepted, done, wbSize, low);
          if Uncomplete(low) { RaiseUncomplete(); }
          assert Queued(high, low);
        } else {
          polled := false;
          if kind == HalfClose {
            NothingLeft();
            ForceClose(false);
            closed := true;
          }
        }
      }
    }

    /** The begun message of the low queue goes before anything of high priority. */
    method RaiseUncomplete()
      requires high == [] && low != []
      modifies `high, `low
      ensures high == [old(low)[0]] && low == old(low)[1..]
    {
      high := [low[0]];
      low := low[1..];
    }

    lemma NothingLeft()
      requires Queued([], [])
      ensures AllSent()
    {
      hide Flatten, Select;
      SelectEmpty();
    }

    /** Accepts a message. With nothing queued it is written at once, and what is left of it goes
        to the high queue whatever its priority; otherwise it joins the queue of its priority. Only a
        failed write closes the socket. */
    method SendSocket(m: Message, result: WriteResult) returns (closed: bool)
      requires Valid()
      modifies this
      ensures Valid() && Now() == Posted(old(Now()), m, result)
      ensures accepted == old(accepted) + Taken(old(Now()), Send(m, result))
      ensures closed == (old(kind) != Invalid && kind == Invalid) && (closed ==> result == Failed)
      ensures aborted == (old(aborted) || closed)
    {
      hide Consistent;
      closed := false;
      if kind in {Invalid, HalfClose, PAccept} { return; }
      if kind in {PListen, Listen} { return; }
      if high == [] && low == [] && kind == Connected {
        closed := SendDirect(m, result);
      } else {
        if m.low {
          AppendedLow(wire, accepted, done, wbSize, high, low, m);
          low := low + [WriteBuffer(m, 0)];
        } else {
          AppendedHigh(wire, accepted, done, wbSize, high, low, m);
          high := high + [WriteBuffer(m, 0)];
        }
        accepted := accepted + [m];
        wbSize := wbSize + |m.data|;
      }
    }

    /** Writes a message at once; what is left of it is queued. */
    method SendDirect(m: Message, result: WriteResult) returns (closed: bool)
      requires Valid() && Direct(Now())
      modifies this
      ensures Valid() && Now() == Posted(old(Now()), m, result) && closed == aborted == (result == Failed)
      ensures accepted == old(accepted) + (if closed then [] else [m])
    {
      hide Consistent;
      closed := false;
      var n := 0;
      match result {
        case Wrote(k) => n := k;
        case Interrupted => n := 0;
        case Again => n := 0;
        case Failed =>
          ForceClose(true);
          closed := true;
          return;
      }
      AppendedHigh(wire, accepted, done, wbSize, [], [], m);
      accepted := accepted + [m];
      ghost var wire0 := wire;
      var b := WriteBuffer(m, 0);
      assert Rest(b) == m.data && [] + [b] == [b] && [b][1..] == [];
      var sz := Write(m.data, n);
      if sz == |m.data| {
        assert m.data[..sz] == m.data;
        WholeWritten(wire0, accepted, done, wbSize + |m.data|, [b], []);
        done := done + [m];
        return;
      }
      PartWritten(wire0, accepted, done, wbSize + |m.data|, [b], [], sz);
      assert [b.(ptr := 0 + sz)] + [] == [WriteBuffer(m, sz)];
      high := [WriteBuffer(m, sz)];
      wbSize := wbSize + (|m.data| - sz);
      polled := true;
    }

    /** Closes now when nothing is queued, after a last attempt to write; else half-closes. What was
        accepted is only dropped after a failed write. */
    method CloseSocket(results: seq<WriteResult>) returns (closed: bool)
      requires Valid()
      modifies this
      ensures Valid() && Now() == ClosedWith(old(Now()), results) && accepted == old(accepted)
      ensures closed == (kind == Invalid) && (!closed ==> kind == HalfClose)
      ensures aborted ==> old(aborted) || Failed in results
      ensures closed && !old(aborted) && Failed !in results ==> AllSent()
    {
      hide Consistent, Sending;
      closed := true;
      if kind == Invalid { return; }
      if high != [] || low != [] {
        closed := SendBuffer(results);
        if closed { return; }
      }
      if high == [] && low == [] {
        NothingLeft();
        ForceClose(false);
        closed := true;
        return;
      }
      kind := HalfClose;
      closed := false;
    }

    /** The outcome of a pending connection. */
    method ReportConnect(ok: bool)
      requires Valid() && kind == Connecting
      modifies this
      ensures Valid() && Now() == Step(old(Now()), Connect(ok)) && accepted == old(accepted)
      ensures aborted == !ok
    {
      hide Consistent;
      if !ok {
        ForceClose(true);
      } else {
        kind := Connected;
        if high == [] && low == [] { polled := false; }
      }
    }

    /** An accepted socket starts to work; a listening one starts to listen. */
    method Start()
      requires Valid() && kind in {PAccept, PListen}
      modifies `kind
      ensures Valid() && Now() == Step(old(Now()), Begin)
    {
      hide Consistent;
      kind := if kind == PAccept then Connected else Listen;
    }

    /** The peer closed, or reading failed. */
    method PeerClosed()
      requires Valid() && kind != Invalid
      modifies this
      ensures Valid() && Now() == Step(old(Now()), Lost) && accepted == old(accepted) && aborted
    {
      ForceClose(true);
    }

    /** Any sequence of sends, write events, closes and failures, with any answers of the system. The
        socket is where the events lead, and has accepted what they handed to it. The wire holds
        whole messages and at most one begun one; with what is queued they are the accepted messages,
        in order within each priority. If nothing fails, the socket closes only after everything
        accepted is on the wire. */
    method Run(events: seq<Event>)
      requires Valid()
      modifies this
      ensures Valid() && Now() == RunAll(old(Now()), events)
      ensures accepted == old(accepted) + AllTaken(old(Now()), events)
      ensures kind != Invalid ==>
        && wire == Flatten(done) + Begun(high)
        && forall p :: Select(accepted, p) == Select(done, p) + Select(Messages(high), p) + Select(Messages(low), p)
      ensures kind == Invalid && !old(aborted) && (forall i :: 0 <= i < |events| ==> !Fails(events[i])) ==>
        wire == Flatten(done) && forall p :: Select(done, p) == Select(accepted, p)
    {
      hide Consistent, Flatten, Select, Step, RunAll, AllTaken, Taken, Fails;
      hide Valid;
      RunStart(Now(), accepted);
      assert events[..0] == [];
      for i := 0 to |events|
        invariant Valid() && Now() == RunAll(old(Now()), events[..i])
        invariant accepted == old(accepted) + AllTaken(old(Now()), events[..i])
        invariant aborted ==> old(aborted) || exists j :: 0 <= j < i && Fails(events[j])
      {
        RunNext(old(Now()), old(accepted), events, i);
        Handle(events[i]);
      }
      assert events[..|events|] == events;
      forall p { WireIsInOrder(p); }
      WireIsInOrder(true);
    }

    method Handle(e: Event)
      requires Valid()
      modifies this
      ensures Valid() && Now() == Step(old(Now()), e)
      ensures accepted == old(accepted) + Taken(old(Now()), e)
      ensures aborted ==> old(aborted) || Fails(e)
    {
      hide Consistent, Flushed, Posted, ClosedWith;
      match e {
        case Send(m, result) => var _ := SendSocket(m, result);
        case CanWrite(results) => if kind in {Connected, HalfClose} { var _ := SendBuffer(results); }
        case Close(results) => var _ := CloseSocket(results);
        case Connect(ok) => if kind == Connecting { ReportConnect(ok); }
        case Begin => if kind in {PAccept, PListen} { Start(); }
        case Lost => if kind != Invalid { PeerClosed(); }
      }
    }

    /** Whatever was accepted and not sent is queued; per priority nothing overtakes, and the wire
        never holds a piece of a message that is not the next one. */
    lemma WireIsInOrder(p: bool)
      requires Valid()
      ensures kind != Invalid ==>
        && wire == Flatten(done) + Begun(high)
        && Select(accepted, p) == Select(done, p) + Select(Messages(high), p) + Select(Messages(low), p)
        && wbSize == Unsent(high) + Unsent(low)
        && (forall b :: b in low ==> b.ptr == 0) && (forall i :: 0 < i < |high| ==> high[i].ptr == 0)
      ensures kind == Invalid && !aborted ==> wire == Flatten(done) && Select(done, p) == Select(accepted, p)
    {
      hide Flatten, Select, Unsent;
    }
  }

  lemma NothingSent(s: Sent, wire: seq<Byte>)
    ensures Prefixed([], s) == s && wire + [] == wire
  {
  }

  lemma NothingMore(sent: seq<Byte>)
    ensures sent + [] == sent
  {
  }

  lemma SentMore(wire: seq<Byte>, sent: seq<Byte>, bytes: seq<Byte>, s: Sent)
    ensures wire + sent + bytes == wire + (sent + bytes)
    ensures Prefixed(sent, Prefixed(bytes, s)) == Prefixed(sent + bytes, s)
  {
  }

  lemma RunStart(v: View, accepted: seq<Message>)
    ensures RunAll(v, []) == v && AllTaken(v, []) == [] && accepted + [] == accepted
  {
  }

  lemma RunNext(v: View, accepted: seq<Message>, events: seq<Event>, i: nat)
    requires i < |events|
    ensures RunAll(v, events[..i + 1]) == Step(RunAll(v, events[..i]), events[i])
    ensures accepted + AllTaken(v, events[..i]) + Taken(RunAll(v, events[..i]), events[i]) == accepted + AllTaken(v, events[..i + 1])
  {
    hide Step, Taken;
    assert events[..i + 1][..i] == events[..i];
    Regroup(accepted, AllTaken(v, events[..i]), Taken(RunAll(v, events[..i]), events[i]));
  }
}
