/** What the write queues of a socket do with the answers of the system, from those answers alone,
    and what whole runs of write events come to. */
module SocketRuns {
  import opened Sequences
  import opened SocketWrite

  // One list.

  /** How many of the first `i` answers are counts: each is about one more message. */
  function Place(results: seq<WriteResult>, i: nat): (n: nat)
    requires i <= |results|
    ensures n <= i
  {
    if i == 0 then 0 else Place(results, i - 1) + if results[i - 1].Wrote? then 1 else 0
  }

  /** Answer `i` is a count that covers what is left of its message. */
  predicate Whole(list: seq<WriteBuffer>, results: seq<WriteResult>, i: nat)
    requires i < |results|
  {
    results[i].Wrote? && Place(results, i) < |list| && |Rest(list[Place(results, i)])| <= results[i].n
  }

  /** Answer `i` takes less than it was offered. */
  predicate Short(list: seq<WriteBuffer>, results: seq<WriteResult>, i: nat)
    requires i < |results|
  {
    results[i].Wrote? && Place(results, i) < |list| && results[i].n < |Rest(list[Place(results, i)])|
  }

  /** All bytes that a list still has to write. */
  function RestOf(list: seq<WriteBuffer>): seq<Byte> {
    if list == [] then [] else Rest(list[0]) + RestOf(list[1..])
  }

  /** The first `k` answers are those that the list uses. */
  ghost predicate Uses(list: seq<WriteBuffer>, results: seq<WriteResult>, k: nat)
    requires k <= |results|
  {
    && (forall i :: 0 <= i < k - 1 ==> results[i] == Interrupted || Whole(list, results, i))
    && (forall i :: 0 <= i < k ==> Place(results, i) < |list|)
    && (k == |results| || Place(results, k) == |list|
        || (k > 0 && (results[k - 1] in {Again, Failed} || Short(list, results, k - 1))))
  }

  /** What is left and what went out after `k` answers. */
  ghost predicate Outcome(list: seq<WriteBuffer>, results: seq<WriteResult>, k: nat, s: Sent)
    requires k <= |results|
  {
    && s.more == results[k..]
    && (s.failed <==> k > 0 && results[k - 1] == Failed)
    && if k > 0 && Short(list, results, k - 1) then
         var f, n := Place(results, k - 1), results[k - 1].n;
         && s.left == [list[f].(ptr := list[f].ptr + n)] + list[f + 1..]
         && s.bytes == RestOf(list[..f]) + Rest(list[f])[..n]
       else
         var f := Place(results, k);
         f <= |list| && s.left == list[f..] && s.bytes == RestOf(list[..f])
  }

  lemma {:induction false} PlaceNext(results: seq<WriteResult>, i: nat)
    requires 0 < i <= |results|
    ensures Place(results, i) == Place(results[1..], i - 1) + if results[0].Wrote? then 1 else 0
  {
    if i > 1 { PlaceNext(results, i - 1); }
  }

  lemma RestOfFirst(list: seq<WriteBuffer>, f: nat)
    requires 0 < f <= |list|
    ensures RestOf(list[..f]) == Rest(list[0]) + RestOf(list[1..][..f - 1])
  {
    assert list[..f][1..] == list[1..][..f - 1];
  }

  /** A list is written while the answers are counts that cover the messages one by one, ignoring
      interruptions; the first other answer is the last one used, and tells how it ended. */
  lemma {:induction false} SendingExactly(list: seq<WriteBuffer>, results: seq<WriteResult>) returns (k: nat)
    ensures k <= |results| && Uses(list, results, k) && Outcome(list, results, k, Sending(list, results))
    decreases |results|
  {
    hide Uses, Outcome, Sending, Rest;
    if list == [] || results == [] {
      k := 0;
      NothingUsed(list, results);
    } else if results[0] == Interrupted {
      var j := SendingExactly(list, results[1..]);
      k := j + 1;
      UsesNext(list, list, results, j);
    } else if results[0].Wrote? && |Rest(list[0])| <= results[0].n {
      var j := SendingExactly(list[1..], results[1..]);
      k := j + 1;
      UsesNext(list, list[1..], results, j);
    } else {
      k := 1;
      FirstEnds(list, results);
    }
  }

  lemma NothingUsed(list: seq<WriteBuffer>, results: seq<WriteResult>)
    requires list == [] || results == []
    ensures Uses(list, results, 0) && Outcome(list, results, 0, Sending(list, results))
  {
    hide Rest;
    assert results[0..] == results && list[0..] == list;
  }

  /** The first answer ends it. */
  lemma FirstEnds(list: seq<WriteBuffer>, results: seq<WriteResult>)
    requires list != [] && results != []
    requires results[0] in {Again, Failed} || (results[0].Wrote? && results[0].n < |Rest(list[0])|)
    ensures Uses(list, results, 1) && Outcome(list, results, 1, Sending(list, results))
  {
    hide Rest;
    assert Place(results, 0) == 0;
    assert list[0..] == list && list[..0] == [];
  }

  /** One more answer in front: an interruption, or a count that covers the first message. */
  predicate InFront(list: seq<WriteBuffer>, rest: seq<WriteBuffer>, results: seq<WriteResult>) {
    && list != [] && results != []
    && if results[0].Wrote? then rest == list[1..] && |Rest(list[0])| <= results[0].n
       else results[0].Interrupted? && rest == list
  }

  lemma Shifted(list: seq<WriteBuffer>, rest: seq<WriteBuffer>, results: seq<WriteResult>, i: nat)
    requires InFront(list, rest, results) && i < |results| - 1
    ensures Whole(list, results, i + 1) <==> Whole(rest, results[1..], i)
    ensures Short(list, results, i + 1) <==> Short(rest, results[1..], i)
    ensures Place(results, i + 1) < |list| <==> Place(results[1..], i) < |rest|
  {
    hide Rest, Place;
    PlaceNext(results, i + 1);
    var f := Place(results[1..], i);
    if results[0].Wrote? && f < |rest| { assert list[f + 1] == rest[f]; }
  }

  lemma UsesNext(list: seq<WriteBuffer>, rest: seq<WriteBuffer>, results: seq<WriteResult>, j: nat)
    requires InFront(list, rest, results) && j <= |results| - 1
    requires Uses(rest, results[1..], j) && Outcome(rest, results[1..], j, Sending(rest, results[1..]))
    ensures Uses(list, results, j + 1) && Outcome(list, results, j + 1, Sending(list, results))
  {
    FirstUsed(list, rest, results);
    AllUsed(list, rest, results, j);
    EndsTheSame(list, rest, results, j);
  }

  lemma FirstUsed(list: seq<WriteBuffer>, rest: seq<WriteBuffer>, results: seq<WriteResult>)
    requires InFront(list, rest, results)
    ensures Place(results, 0) == 0 && (results[0] == Interrupted || Whole(list, results, 0)) && !Short(list, results, 0)
  {
  }

  lemma AllUsed(list: seq<WriteBuffer>, rest: seq<WriteBuffer>, results: seq<WriteResult>, j: nat)
    requires InFront(list, rest, results) && j <= |results| - 1
    requires Uses(rest, results[1..], j)
    ensures Uses(list, results, j + 1)
  {
    hide Whole, Short, Rest, Place;
    FirstUsed(list, rest, results);
    forall i | 0 <= i < j ensures results[i] == Interrupted || Whole(list, results, i) {
      if i > 0 { Shifted(list, rest, results, i - 1); }
    }
    forall i | 0 <= i < j + 1 ensures Place(results, i) < |list| {
      if i > 0 { Shifted(list, rest, results, i - 1); }
    }
    if j > 0 { Shifted(list, rest, results, j - 1); }
    PlaceNext(results, j + 1);
  }

  lemma EndsTheSame(list: seq<WriteBuffer>, rest: seq<WriteBuffer>, results: seq<WriteResult>, j: nat)
    requires InFront(list, rest, results) && j <= |results| - 1
    requires Uses(rest, results[1..], j) && Outcome(rest, results[1..], j, Sending(rest, results[1..]))
    ensures Outcome(list, results, j + 1, Sending(list, results))
  {
    hide Whole, Short, Rest, Place, RestOf, Sending, Outcome;
    var more := results[1..];
    SendingNext(list, rest, results);
    FirstUsed(list, rest, results);
    PlaceNext(results, j + 1);
    var s := Sending(rest, more);
    var cut := j > 0 && Short(rest, more, j - 1);
    if j > 0 {
      Shifted(list, rest, results, j - 1);
      PlaceNext(results, j);
    }
    if results[0].Wrote? {
      if cut { CutBehind(list, results, j, s); } else { WholeBehind(list, results, j, s); }
    } else {
      assert [] + s.bytes == s.bytes;
      SameBehind(list, results, j, s);
    }
  }

  lemma CutBehind(list: seq<WriteBuffer>, results: seq<WriteResult>, j: nat, s: Sent)
    requires list != [] && 0 < j < |results|
    requires Short(list[1..], results[1..], j - 1) && Short(list, results, j)
    requires Place(results, j) == Place(results[1..], j - 1) + 1
    requires Outcome(list[1..], results[1..], j, s)
    ensures Outcome(list, results, j + 1, Prefixed(Rest(list[0]), s))
  {
    hide Rest, Place, RestOf;
    var f := Place(results[1..], j - 1);
    assert results[j + 1..] == results[1..][j..];
    RestOfFirst(list, f + 1);
    assert list[f + 2..] == list[1..][f + 1..];
    Regroup(Rest(list[0]), RestOf(list[1..][..f]), Rest(list[f + 1])[..results[j].n]);
  }

  lemma WholeBehind(list: seq<WriteBuffer>, results: seq<WriteResult>, j: nat, s: Sent)
    requires list != [] && j < |results| && results[0].Wrote?
    requires !(j > 0 && Short(list[1..], results[1..], j - 1)) && !Short(list, results, j)
    requires Place(results, j + 1) == Place(results[1..], j) + 1
    requires Outcome(list[1..], results[1..], j, s)
    ensures Outcome(list, results, j + 1, Prefixed(Rest(list[0]), s))
  {
    hide Rest, Place, RestOf, Short;
    var f := Place(results[1..], j);
    assert results[j + 1..] == results[1..][j..];
    RestOfFirst(list, f + 1);
    assert list[f + 1..] == list[1..][f..];
  }

  lemma SameBehind(list: seq<WriteBuffer>, results: seq<WriteResult>, j: nat, s: Sent)
    requires j < |results| && results[0] == Interrupted
    requires (j > 0 && Short(list, results[1..], j - 1)) <==> Short(list, results, j)
    requires Place(results, j + 1) == Place(results[1..], j) && (j > 0 ==> Place(results, j) == Place(results[1..], j - 1))
    requires Outcome(list, results[1..], j, s)
    ensures Outcome(list, results, j + 1, s)
  {
    hide Rest, Place, RestOf, Short;
    assert results[j + 1..] == results[1..][j..];
  }

  /** What one answer in front adds. */
  lemma SendingNext(list: seq<WriteBuffer>, rest: seq<WriteBuffer>, results: seq<WriteResult>)
    requires InFront(list, rest, results)
    ensures
      Sending(list, results) ==
        Prefixed(if results[0].Wrote? then Rest(list[0]) else [], Sending(rest, results[1..]))
  {
    hide Rest;
    var s := Sending(rest, results[1..]);
    assert [] + s.bytes == s.bytes;
  }

  // Whole runs.

  /** How far a socket is from having written everything: its unsent bytes, and its messages. */
  function Pending(v: View): nat { |RestOf(v.high)| + |v.high| + |RestOf(v.low)| + |v.low| }

  /** Everything the socket still has to write, in the order in which it will. */
  function ToWrite(v: View): seq<Byte> { RestOf(v.high) + RestOf(v.low) }

  /** A write event that takes something. */
  predicate Takes(e: Event) {
    e.CanWrite? && e.results != [] && e.results[0].Wrote? && e.results[0].n > 0 && Failed !in e.results
  }

  lemma RestOfConcat(a: seq<WriteBuffer>, b: WriteBuffer)
    ensures RestOf(a + [b]) == RestOf(a) + Rest(b)
  {
    if a == [] {
      assert a + [b] == [b];
    } else {
      assert (a + [b])[1..] == a[1..] + [b];
      RestOfConcat(a[1..], b);
      Regroup(Rest(a[0]), RestOf(a[1..]), Rest(b));
    }
  }

  /** Nothing is lost or written twice, and a first count above 0 gets on. */
  lemma {:induction false} SendingKeeps(list: seq<WriteBuffer>, results: seq<WriteResult>)
    ensures
      var s := Sending(list, results);
      && s.bytes + RestOf(s.left) == RestOf(list)
      && |s.left| <= |list|
      && (s.left == [] && !s.failed ==> s.bytes == RestOf(list))
      && (list != [] && results != [] && results[0].Wrote? && results[0].n > 0 ==>
            |RestOf(s.left)| + |s.left| < |RestOf(list)| + |list|)
    decreases |results|
  {
    if list != [] && results != [] {
      match results[0]
      case Interrupted => SendingKeeps(list, results[1..]);
      case Wrote(n) =>
        var rest := Rest(list[0]);
        if n < |rest| {
          var b := list[0].(ptr := list[0].ptr + n);
          assert rest[..n] + Rest(b) == rest;
          assert ([b] + list[1..])[1..] == list[1..];
          Regroup(rest[..n], Rest(b), RestOf(list[1..]));
        } else {
          SendingKeeps(list[1..], results[1..]);
          var s := Sending(list[1..], results[1..]);
          Regroup(rest, s.bytes, RestOf(s.left));
        }
      case _ =>
    }
  }

  lemma EmptyRest()
    ensures RestOf([]) == []
  {
  }

  lemma FirstRest(list: seq<WriteBuffer>)
    requires list != []
    ensures RestOf([list[0]]) + RestOf(list[1..]) == RestOf(list)
  {
    assert [list[0]][1..] == [];
  }

  lemma NothingSends(results: seq<WriteResult>)
    ensures Sending([], results) == Sent([], results, [], false)
  {
  }

  /** What one write event without a failure keeps: what is on the wire and what is to be written
      stay the same together, and it gets on, closes what is half-closed and empty, or has nothing
      to do. */
  ghost predicate Kept(v: View, v': View) {
    && v'.wire + ToWrite(v') == v.wire + ToWrite(v)
    && v'.wbSize - |ToWrite(v')| == v.wbSize - |ToWrite(v)|
  }

  lemma Joined(w: seq<Byte>, a: seq<Byte>, b: seq<Byte>, c: seq<Byte>)
    ensures (w + a) + (b + c) == w + ((a + b) + c)
  {
  }

  lemma FlushHigh(v: View, results: seq<WriteResult>)
    requires v.kind in {Connected, HalfClose} && Failed !in results && Sending(v.high, results).left != []
    ensures
      var v' := Flushed(v, results);
      && Kept(v, v') && v'.kind == v.kind && !Empty(v)
      && (Takes(CanWrite(results)) ==> Pending(v') < Pending(v))
  {
    hide RestOf, Sending;
    SendingKeeps(v.high, results);
    var h := Sending(v.high, results);
    Joined(v.wire, h.bytes, RestOf(h.left), RestOf(v.low));
  }

  lemma FlushAllHigh(v: View, results: seq<WriteResult>)
    requires v.kind in {Connected, HalfClose} && Failed !in results && Sending(v.high, results).left == [] && v.low == []
    ensures
      var v' := Flushed(v, results);
      && Kept(v, v') && Empty(v') && !v'.polled && v'.kind == (if v.kind == HalfClose then Invalid else v.kind)
  {
    hide RestOf, Sending;
    SendingKeeps(v.high, results);
    var h := Sending(v.high, results);
    EmptyRest();
  }

  lemma FlushLow(v: View, results: seq<WriteResult>)
    requires v.kind in {Connected, HalfClose} && Failed !in results && Sending(v.high, results).left == [] && v.low != []
    ensures
      var v' := Flushed(v, results);
      && Kept(v, v') && v'.kind == v.kind && !Empty(v)
      && (Takes(CanWrite(results)) ==> Pending(v') < Pending(v))
  {
    hide RestOf, Sending;
    SendingKeeps(v.high, results);
    var h := Sending(v.high, results);
    SendingKeeps(v.low, h.more);
    var l := Sending(v.low, h.more);
    EmptyRest();
    if v.high == [] { NothingSends(results); }
    if l.left != [] { FirstRest(l.left); }
    var v' := Flushed(v, results);
    assert ToWrite(v') == RestOf(l.left);
    assert v'.wire == v.wire + h.bytes + l.bytes;
    Joined(v.wire, h.bytes, l.bytes, RestOf(l.left));
    Regroup(h.bytes, l.bytes, RestOf(l.left));
    Regroup(v.wire, h.bytes, l.bytes);
    Joined(v.wire, h.bytes + l.bytes, [], RestOf(l.left));
  }

  /** Where write events that take something lead: all is written, no write event is asked for, and
      a half-closed socket is closed. */
  function Drained(v: View): View {
    View(if v.kind == HalfClose then Invalid else v.kind, [], [], v.wbSize - |ToWrite(v)|, false, v.wire + ToWrite(v))
  }

  lemma SameDrained(v: View, v': View)
    requires Kept(v, v') && (v'.kind == v.kind || (v.kind == HalfClose && v'.kind == Invalid))
    ensures Drained(v') == Drained(v)
  {
  }

  lemma DrainedStays(v: View, e: Event)
    requires v == Drained(v) && v.kind in {Connected, Invalid} && Takes(e)
    ensures Step(v, e) == v
  {
    NothingSends(e.results);
    EmptyRest();
    if v.kind == Connected { assert v.wire + [] == v.wire; }
  }

  lemma DrainStep(v: View, e: Event)
    requires v.kind in {Connected, HalfClose} && Takes(e)
    ensures
      var v' := Step(v, e);
      && Drained(v') == Drained(v)
      && (v' == Drained(v) || (v'.kind == v.kind && Pending(v') < Pending(v)))
  {
    hide RestOf, Sending;
    var h := Sending(v.high, e.results);
    if h.left != [] { FlushHigh(v, e.results); }
    else if v.low == [] {
      FlushAllHigh(v, e.results);
      EmptyRest();
    } else {
      FlushLow(v, e.results);
    }
    SameDrained(v, Step(v, e));
  }

  lemma {:induction false} DrainRun(v: View, events: seq<Event>)
    requires v.kind in {Connected, HalfClose} && forall e :: e in events ==> Takes(e)
    ensures
      var w := RunAll(v, events);
      && Drained(w) == Drained(v)
      && (w == Drained(v) || (w.kind == v.kind && Pending(w) + |events| <= Pending(v)))
    decreases |events|
  {
    hide Step, Pending, ToWrite, Takes;
    if events != [] {
      var before, e := events[..|events| - 1], events[|events| - 1];
      assert forall x :: x in before ==> x in events;
      DrainRun(v, before);
      var w := RunAll(v, before);
      if w == Drained(v) { DrainedStays(w, e); } else { DrainStep(w, e); }
    }
  }

  /** Enough write events that take something write everything, and close a half-closed socket. */
  lemma DrainsAll(v: View, events: seq<Event>)
    requires v.kind in {Connected, HalfClose} && (forall e :: e in events ==> Takes(e)) && |events| > Pending(v)
    ensures RunAll(v, events) == Drained(v)
  {
    hide RunAll, Pending, Drained, Takes;
    DrainRun(v, events);
  }

  lemma {:induction false} RunFirst(v: View, e: Event, events: seq<Event>)
    ensures RunAll(v, [e] + events) == RunAll(Step(v, e), events)
    decreases |events|
  {
    hide Step;
    var all := [e] + events;
    if events == [] {
      assert all[..0] == [] && RunAll(v, []) == v;
      assert all == [e];
    } else {
      var n := |events| - 1;
      assert all[..|all| - 1] == [e] + events[..n];
      RunFirst(v, e, events[..n]);
    }
  }

  /** A message handed to a connected socket goes out whole: behind what is queued with its priority
      and above, and at once if nothing is. */
  lemma SentGoesOut(v: View, m: Message, result: WriteResult, events: seq<Event>)
    requires v.kind == Connected && result != Failed
    requires (forall e :: e in events ==> Takes(e)) && |events| > Pending(v) + |m.data| + 1
    ensures
      RunAll(v, [Send(m, result)] + events) ==
        View(Connected, [], [], v.wbSize - |ToWrite(v)|, false, With(v, m))
  {
    var v1 := Step(v, Send(m, result));
    PostedKeeps(v, m, result);
    RunFirst(v, Send(m, result), events);
    hide RunAll, Step, Takes;
    DrainsAll(v1, events);
  }

  /** What is on the wire and to be written once `m` has joined it. */
  function With(v: View, m: Message): seq<Byte> {
    v.wire + if m.low then RestOf(v.high) + RestOf(v.low) + m.data else RestOf(v.high) + m.data + RestOf(v.low)
  }

  ghost predicate Joins(v: View, m: Message, v1: View) {
    && v1.kind == Connected && v1.wire + ToWrite(v1) == With(v, m)
    && v1.wbSize - |ToWrite(v1)| == v.wbSize - |ToWrite(v)|
    && Pending(v1) <= Pending(v) + |m.data| + 1
  }

  lemma PostedKeeps(v: View, m: Message, result: WriteResult)
    requires v.kind == Connected && result != Failed
    ensures Joins(v, m, Step(v, Send(m, result)))
  {
    hide Joins, RestOf;
    if Direct(v) { PostedDirect(v, m, result); } else { PostedQueued(v, m, result); }
  }

  lemma PostedDirect(v: View, m: Message, result: WriteResult)
    requires v.kind == Connected && Direct(v) && result != Failed
    ensures Joins(v, m, Step(v, Send(m, result)))
  {
    hide RestOf;
    EmptyRest();
    var n := if result.Wrote? then result.n else 0;
    assert With(v, m) == v.wire + m.data;
    if n < |m.data| {
      var b := WriteBuffer(m, n);
      FirstRest([b]);
      OneRest(b);
      assert m.data[..n] + m.data[n..] == m.data;
      Regroup(v.wire, m.data[..n], m.data[n..]);
    }
  }

  lemma OneRest(b: WriteBuffer)
    ensures RestOf([b]) == Rest(b)
  {
    assert [b][1..] == [];
  }

  lemma PostedQueued(v: View, m: Message, result: WriteResult)
    requires v.kind == Connected && !Direct(v) && result != Failed
    ensures Joins(v, m, Step(v, Send(m, result)))
  {
    hide RestOf;
    var b := WriteBuffer(m, 0);
    assert Rest(b) == m.data;
    if m.low {
      RestOfConcat(v.low, b);
      Regroup(RestOf(v.high), RestOf(v.low), m.data);
    } else {
      RestOfConcat(v.high, b);
    }
  }

  /** An orderly close of a connected socket: after enough write events everything queued is on the
      wire and the socket is closed. */
  lemma CloseGoesThrough(v: View, results: seq<WriteResult>, events: seq<Event>)
    requires v.kind == Connected && Failed !in results
    requires (forall e :: e in events ==> Takes(e)) && |events| > Pending(v)
    ensures
      var w := RunAll(v, [Close(results)] + events);
      w.kind == Invalid && Empty(w) && w.wire == v.wire + ToWrite(v)
  {
    var v1 := Step(v, Close(results));
    RunFirst(v, Close(results), events);
    CloseKeeps(v, results);
    if v1.kind == HalfClose {
      hide RunAll, Step, Takes;
      DrainsAll(v1, events);
    } else {
      InvalidStays(v1, events);
    }
  }

  lemma {:induction false} InvalidStays(v: View, events: seq<Event>)
    requires v.kind == Invalid
    ensures RunAll(v, events) == v
    decreases |events|
  {
    if events != [] { InvalidStays(v, events[..|events| - 1]); }
  }

  lemma CloseKeeps(v: View, results: seq<WriteResult>)
    requires v.kind == Connected && Failed !in results
    ensures
      var v1 := Step(v, Close(results));
      && v1.kind == (if Empty(v1) then Invalid else HalfClose)
      && v1.wire + ToWrite(v1) == v.wire + ToWrite(v)
      && Pending(v1) <= Pending(v)
  {
    hide RestOf, Sending;
    EmptyRest();
    if !Empty(v) {
      SendingKeeps(v.high, results);
      var h := Sending(v.high, results);
      if h.left != [] { FlushHigh(v, results); }
      else if v.low == [] { FlushAllHigh(v, results); }
      else { FlushLow(v, results); }
    }
  }

  /** A pending connection that succeeds goes on with what was queued meanwhile. */
  lemma ConnectGoesOn(v: View, events: seq<Event>)
    requires v.kind == Connecting && (forall e :: e in events ==> Takes(e)) && |events| > Pending(v)
    ensures RunAll(v, [Connect(true)] + events) == View(Connected, [], [], v.wbSize - |ToWrite(v)|, false, v.wire + ToWrite(v))
  {
    var v1 := Step(v, Connect(true));
    RunFirst(v, Connect(true), events);
    DrainsAll(v1, events);
  }
}
