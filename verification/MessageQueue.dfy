/** The message queue of a service, a ring buffer that doubles when it fills up, and the
    global list that links the queues with work through their `next` fields. */
module MessageQueues {
  import opened Modular
  import opened Wrappers

  datatype Message = Message(source: nat, session: int, data: nat, sz: nat)

  const DEFAULT_QUEUE_SIZE := 64
  const MQ_OVERLOAD := 1024

  /** Doubles the threshold until the length no longer exceeds it. */
  function Raised(threshold: int, length: int): (r: int)
    requires threshold > 0
    decreases length - threshold
  {
    if length > threshold then Raised(threshold * 2, length) else threshold
  }

  /** The raised threshold is the first doubling that the length does not exceed. */
  lemma {:induction false} RaisedIsLeast(threshold: int, length: int) returns (k: nat)
    requires threshold > 0
    ensures Raised(threshold, length) == threshold * Pow2(k)
    ensures length <= threshold * Pow2(k)
    ensures k > 0 ==> length > threshold * Pow2(k - 1)
    decreases length - threshold
  {
    k := 0;
    if length > threshold {
      var j := RaisedIsLeast(threshold * 2, length);
      k := j + 1;
      assert threshold * 2 * Pow2(j) == threshold * Pow2(k);
      if j > 0 { assert threshold * 2 * Pow2(j - 1) == threshold * Pow2(j); }
    }
  }

  class MessageQueue {
    const handle: nat
    var cap: int
    var head: int
    var tail: int
    var release: bool
    var inGlobal: bool
    var overload: int
    var overloadThreshold: int
    var queue: array<Message>
    var next: MessageQueue?

    ghost predicate Valid()
      reads `cap, `head, `tail, `queue, `overloadThreshold
    {
      && cap == queue.Length > 0
      && 0 <= head < cap && 0 <= tail < cap
      && overloadThreshold > 0
    }

    /** The messages in the queue, oldest first. */
    ghost function Contents(): seq<Message>
      reads `cap, `head, `tail, `queue, `overloadThreshold, queue
      requires Valid()
    {
      if head <= tail then queue[head..tail] else queue[head..] + queue[..tail]
    }

    constructor (handle: nat)
      ensures Valid() && fresh(queue)
      ensures this.handle == handle && Contents() == []
      ensures inGlobal && !release && overload == 0 && overloadThreshold == MQ_OVERLOAD && next == null
    {
      this.handle := handle;
      cap := DEFAULT_QUEUE_SIZE;
      head := 0;
      tail := 0;
      inGlobal := true;
      release := false;
      overload := 0;
      overloadThreshold := MQ_OVERLOAD;
      queue := new Message[DEFAULT_QUEUE_SIZE];
      next := null;
    }

    method Length() returns (n: int)
      requires Valid()
      ensures n == |Contents()|
    {
      if head <= tail { return tail - head; }
      return tail + cap - head;
    }

    /** Reports an overload once. */
    method TakeOverload() returns (n: int)
      modifies `overload
      ensures n == old(overload) && overload == 0
    {
      n := 0;
      if overload != 0 {
        n := overload;
        overload := 0;
      }
    }

    /** Takes the oldest message of a queue that has one. */
    method TakeHead() returns (m: Message)
      requires Valid() && head != tail
      modifies `head
      ensures Valid() && old(Contents()) != [] && m == old(Contents())[0] && Contents() == old(Contents())[1..]
    {
      m := queue[head];
      head := head + 1;
      if head >= cap { head := 0; }
    }

    /** Records a length beyond the threshold and raises the threshold. */
    method Watch(length: int)
      requires Valid()
      modifies `overload, `overloadThreshold
      ensures Valid() && overloadThreshold == Raised(old(overloadThreshold), length)
      ensures overload == if length > old(overloadThreshold) then length else old(overload)
    {
      ghost var t0 := overloadThreshold;
      while length > overloadThreshold
        modifies `overload, `overloadThreshold
        invariant overloadThreshold >= t0 > 0
        invariant Raised(overloadThreshold, length) == Raised(t0, length)
        invariant overload == if overloadThreshold > t0 then length else old(overload)
        invariant length > overloadThreshold || overloadThreshold > t0 ==> length > t0
        decreases length - overloadThreshold
      {
        overload := length;
        overloadThreshold := overloadThreshold * 2;
      }
    }

    /** Takes the oldest message. A length beyond the threshold is recorded and the
        threshold raised; an empty queue resets it and leaves the global list. */
    method Pop() returns (r: Option<Message>)
      requires Valid()
      modifies `head, `inGlobal, `overload, `overloadThreshold
      ensures Valid()
      ensures
        if old(Contents()) == [] then
          && r == None && Contents() == [] && !inGlobal
          && overloadThreshold == MQ_OVERLOAD && overload == old(overload)
        else
          && r == Some(old(Contents())[0]) && Contents() == old(Contents())[1..]
          && inGlobal == old(inGlobal)
          && overloadThreshold == Raised(old(overloadThreshold), |Contents()|)
          && overload == if |Contents()| > old(overloadThreshold) then |Contents()| else old(overload)
    {
      hide Raised;
      r := None;
      if head != tail {
        var m := TakeHead();
        r := Some(m);
        var length := tail - head;
        if length < 0 { length := length + cap; }
        assert length == |Contents()|;
        hide Contents;
        Watch(length);
      } else {
        overloadThreshold := MQ_OVERLOAD;
      }
      if r.None? { inGlobal := false; }
    }

    /** Doubles the buffer of a queue whose tail has caught up with its head. */
    method Expand()
      requires Valid() && head == tail
      modifies `cap, `head, `tail, `queue
      ensures Valid() && fresh(queue) && cap == 2 * old(cap)
      ensures Contents() == old(queue[head..] + queue[..tail])
    {
      ghost var full := queue[head..] + queue[..tail];
      var newQueue := new Message[cap * 2];
      var i := 0;
      while i < cap
        modifies newQueue
        invariant 0 <= i <= cap
        invariant forall k :: 0 <= k < i ==> newQueue[k] == full[k]
      {
        RingIndex(head, i, cap);
        newQueue[i] := queue[(head + i) % cap];
        i := i + 1;
      }
      assert newQueue[..cap] == full;
      head := 0;
      tail := cap;
      cap := cap * 2;
      queue := newQueue;
    }

    method Append(m: Message)
      requires Valid()
      modifies `cap, `head, `tail, `queue, queue
      ensures Valid() && (queue == old(queue) || fresh(queue))
      ensures Contents() == old(Contents()) + [m]
    {
      queue[tail] := m;
      tail := tail + 1;
      if tail >= cap { tail := 0; }
      if head == tail {
        Expand();
      }
    }

    /** Puts a message at the end, and the queue on the global list unless it is there
        or being dispatched. */
    method Push(g: GlobalQueue, m: Message)
      requires Valid() && g.Valid()
      requires !inGlobal ==> this !in g.list && next == null
      modifies `cap, `head, `tail, `queue, queue, `inGlobal, g, g.list`next
      ensures Valid() && g.Valid() && inGlobal
      ensures Contents() == old(Contents()) + [m]
      ensures g.list == if old(inGlobal) then old(g.list) else old(g.list) + [this]
      ensures release == old(release)
    {
      hide Contents;
      Append(m);
      if !inGlobal {
        inGlobal := true;
        g.Push(this);
      }
    }

    method MarkRelease(g: GlobalQueue)
      requires Valid() && g.Valid() && !release
      requires !inGlobal ==> this !in g.list && next == null
      modifies `release, g, g.list`next
      ensures Valid() && g.Valid() && release
      ensures Contents() == old(Contents())
      ensures g.list == if old(inGlobal) then old(g.list) else old(g.list) + [this]
    {
      release := true;
      if !inGlobal { g.Push(this); }
    }

    /** Empties the queue, oldest message first. */
    method DropQueue() returns (dropped: seq<Message>)
      requires Valid()
      modifies `head, `inGlobal, `overload, `overloadThreshold
      ensures Valid() && dropped == old(Contents()) && Contents() == [] && !inGlobal
    {
      hide Contents, Raised;
      dropped := [];
      ghost var all := Contents();
      var m := Pop();
      while m.Some?
        modifies `head, `inGlobal, `overload, `overloadThreshold
        invariant Valid() && queue == old(queue)
        invariant if m == None then Contents() == [] && !inGlobal && dropped == all
                  else all == dropped + ([m.value] + Contents())
        decreases |Contents()| + (if m.Some? then 1 else 0)
      {
        dropped := dropped + [m.value];
        ghost var rest := Contents();
        assert all == dropped + rest;
        m := Pop();
        assert rest == [] || rest == [rest[0]] + rest[1..];
      }
    }

    /** Gives a queue without a context back: its messages are dropped in order when the
        context is gone for good, else it returns to the global list. */
    method Release(g: GlobalQueue) returns (dropped: seq<Message>, freed: bool)
      requires Valid() && g.Valid() && this !in g.list && next == null
      modifies `head, `inGlobal, `overload, `overloadThreshold, g, g.list`next
      ensures Valid() && g.Valid() && freed == old(release)
      ensures if freed then dropped == old(Contents()) && Contents() == [] && g.list == old(g.list)
              else dropped == [] && g.list == old(g.list) + [this] && Contents() == old(Contents())
    {
      dropped := [];
      freed := release;
      if release {
        dropped := DropQueue();
      } else {
        g.Push(this);
      }
    }
  }

  /** The list of queues that wait for a worker. */
  class GlobalQueue {
    var head: MessageQueue?
    var tail: MessageQueue?
    ghost var list: seq<MessageQueue>

    ghost predicate Valid()
      reads this, list
    {
      && (forall i, j :: 0 <= i < j < |list| ==> list[i] != list[j])
      && (forall i, j :: 0 <= i && j == i + 1 && j < |list| ==> list[i].next == list[j])
      && (list != [] ==> list[|list| - 1].next == null)
      && (if list == [] then head == null && tail == null else head == list[0] && tail == list[|list| - 1])
    }

    constructor ()
      ensures Valid() && list == []
    {
      head := null;
      tail := null;
      list := [];
    }

    method Push(q: MessageQueue)
      requires Valid() && q !in list && q.next == null
      modifies this, list`next
      ensures Valid() && list == old(list) + [q]
    {
      if tail != null {
        tail.next := q;
        tail := q;
      } else {
        head := q;
        tail := q;
      }
      list := list + [q];
    }

    method Pop() returns (q: MessageQueue?)
      requires Valid()
      modifies this, list`next
      ensures Valid()
      ensures if old(list) == [] then q == null && list == []
              else q == old(list[0]) && list == old(list)[1..] && q.next == null
    {
      q := head;
      if q != null {
        assert list[0].next == if 1 < |list| then list[1] else null;
        head := q.next;
        if head == null { tail := null; }
        q.next := null;
        list := list[1..];
      }
    }
  }
}
