/** The hierarchical timing wheel: 256 slots for the ticks of the current block, and four
    levels of 64 slots whose lists cascade down as the 32-bit clock reaches their block. */
module TimerWheel {
  import opened Sequences
  import opened Wrappers

  const WORD := 0x1_0000_0000
  const HALF := 0x8000_0000
  const TIME_NEAR := 256
  const TIME_LEVEL := 64

  datatype Event = Event(handle: nat, session: int)
  datatype TimerNode = TimerNode(expire: nat, event: Event)
  datatype Slot = Near(i: int) | Far(level: int, i: int)

  // Where a node belongs.

  /** The number of the block of level `i` a tick is in. */
  function Block(x: int, i: nat): int { if i == 0 then x / TIME_NEAR else Block(x, i - 1) / TIME_LEVEL }

  /** The ticks in a block of level `i`. */
  function Span(i: nat): (r: int)
    ensures r > 0
  {
    if i == 0 then 0x100 else if i == 1 then 0x4000 else if i == 2 then 0x10_0000 else if i == 3 then 0x400_0000 else WORD
  }

  function Digit(x: int, i: nat): int { if i == 0 then x % TIME_NEAR else Block(x, i - 1) % TIME_LEVEL }

  /** The slot of a node that expires at `e` when the clock shows `t`. */
  function SlotOf(e: int, t: int): Slot {
    if Block(e, 0) == Block(t, 0) then Near(Digit(e, 0))
    else if Block(e, 1) == Block(t, 1) then Far(0, Digit(e, 1))
    else if Block(e, 2) == Block(t, 2) then Far(1, Digit(e, 2))
    else if Block(e, 3) == Block(t, 3) then Far(2, Digit(e, 3))
    else Far(3, Digit(e, 4))
  }

  /** The slot whose list moves down when the clock reaches `ct`. */
  function Moved(ct: int): Option<Slot> {
    if ct == 0 then Some(Far(3, 0))
    else if Digit(ct, 0) != 0 then None
    else if Digit(ct, 1) != 0 then Some(Far(0, Digit(ct, 1)))
    else if Digit(ct, 2) != 0 then Some(Far(1, Digit(ct, 2)))
    else if Digit(ct, 3) != 0 then Some(Far(2, Digit(ct, 3)))
    else Some(Far(3, Digit(ct, 4)))
  }

  /** The C code compares blocks with masks: on 32-bit words, setting the low bits of both
      sides compares the quotients. */
  lemma MasksCompareBlocks(x: bv32, y: bv32)
    ensures (x | 0xff) == (y | 0xff) <==> x >> 8 == y >> 8
    ensures (x | 0x3fff) == (y | 0x3fff) <==> x >> 14 == y >> 14
    ensures (x | 0xf_ffff) == (y | 0xf_ffff) <==> x >> 20 == y >> 20
    ensures (x | 0x3ff_ffff) == (y | 0x3ff_ffff) <==> x >> 26 == y >> 26
  {
  }

  predicate InRange(s: Slot) {
    if s.Near? then 0 <= s.i < TIME_NEAR else 0 <= s.level < 4 && 0 <= s.i < TIME_LEVEL
  }

  function Next(t: int): int { (t + 1) % WORD }

  /** How many ticks from `t` to `e` on the wrapping clock. */
  function Ahead(e: int, t: int): int { (e - t) % WORD }

  // Digits.

  lemma BlockIsQuotient(x: int, i: nat)
    requires i < 4
    ensures Block(x, i) == x / Span(i)
  {
    assert Block(x, 1) == x / 0x100 / 64 == x / 0x4000;
    assert x / 0x4000 / 64 == x / 0x10_0000;
    assert x / 0x10_0000 / 64 == x / 0x400_0000;
    assert i == 0 || i == 1 || i == 2 || i == 3;
    assert Block(x, 2) == x / 0x10_0000;
  }

  /** The clock passes the end of a block of level `i` when its low digits are zero. */
  lemma BlockEnds(x: int, i: nat)
    requires 0 <= x < WORD && i < 4
    ensures x % Span(i) == 0 <==> forall j :: 0 <= j <= i ==> Digit(x, j) == 0
  {
    HasDigits(x);
    BlockIsQuotient(x, i);
  }

  ghost predicate InDigits(x: int, d: int, b0: int, d0: int, b1: int, d1: int, b2: int, d2: int, b3: int) {
    && x == 256 * b0 + d && 0 <= d < 256
    && b0 == 64 * b1 + d0 && 0 <= d0 < 64
    && b1 == 64 * b2 + d1 && 0 <= d1 < 64
    && b2 == 64 * b3 + d2 && 0 <= d2 < 64
    && 0 <= b3 < 64
  }

  ghost predicate Digits(x: int) {
    InDigits(x, Digit(x, 0), Block(x, 0), Digit(x, 1), Block(x, 1), Digit(x, 2), Block(x, 2), Digit(x, 3), Block(x, 3))
  }

  lemma HasDigits(x: int)
    requires 0 <= x < WORD
    ensures Digits(x)
    ensures Digit(x, 4) == Block(x, 3)
  {
    var b0 := x / 256;
    var b1 := b0 / 64;
    var b2 := b1 / 64;
    assert Block(x, 1) == b1 && Block(x, 2) == b2 && Block(x, 3) == b2 / 64;
    assert 0 <= b0 < 0x100_0000;
    assert 0 <= b1 < 0x4_0000;
    assert 0 <= b2 < 0x1000;
  }

  /** Arithmetic of one tick from `t` to `c`, seen from a node that expires at `e` at most half a
      round later. */
  lemma TickDigits(e: int, ed: int, e0: int, ed0: int, e1: int, ed1: int, e2: int, ed2: int, e3: int,
                   t: int, td: int, t0: int, td0: int, t1: int, td1: int, t2: int, td2: int, t3: int,
                   c: int, cd: int, c0: int, cd0: int, c1: int, cd1: int, c2: int, cd2: int, c3: int)
    requires InDigits(e, ed, e0, ed0, e1, ed1, e2, ed2, e3)
    requires InDigits(t, td, t0, td0, t1, td1, t2, td2, t3)
    requires InDigits(c, cd, c0, cd0, c1, cd1, c2, cd2, c3)
    requires c == t + 1 || (c == 0 && t == WORD - 1)
    requires (t < e && e - t < HALF) || e - t + WORD < HALF
    ensures (e0 == t0 ==> e1 == t1) && (e1 == t1 ==> e2 == t2) && (e2 == t2 ==> e3 == t3)
    ensures e0 == c0 ==> e1 == c1 && ed0 == cd0
    ensures e1 == c1 ==> e2 == c2 && ed1 == cd1
    ensures e2 == c2 ==> e3 == c3 && ed2 == cd2
    ensures cd != 0 ==> c0 == t0 && c1 == t1 && c2 == t2 && c3 == t3
    ensures cd == 0 ==> e0 != t0
    ensures cd == 0 && cd0 != 0 ==> c1 == t1 && c2 == t2 && c3 == t3
    ensures cd == 0 && cd0 == 0 ==> e1 != t1
    ensures cd == 0 && cd0 == 0 && cd1 != 0 ==> c2 == t2 && c3 == t3
    ensures cd == 0 && cd0 == 0 && cd1 == 0 ==> e2 != t2
    ensures cd == 0 && cd0 == 0 && cd1 == 0 && cd2 != 0 ==> c3 == t3
    ensures cd == 0 && cd0 == 0 && cd1 == 0 && cd2 == 0 ==> e3 != t3
    ensures c == 0 <==> cd == 0 && cd0 == 0 && cd1 == 0 && cd2 == 0 && c3 == 0
  {
  }

  lemma NextIs(e: int, t: int)
    requires 0 <= e < WORD && 0 <= t < WORD && 1 <= Ahead(e, t) < HALF
    ensures Next(t) == t + 1 || (Next(t) == 0 && t == WORD - 1)
    ensures 0 <= Next(t) < WORD
    ensures (t < e && e - t < HALF) || e - t + WORD < HALF
  {
  }

  /** When the clock advances, a pending node keeps its slot unless it is in the one list
      that moves. */
  lemma OthersKeepTheirSlot(e: int, t: int)
    requires 0 <= e < WORD && 0 <= t < WORD && 1 <= Ahead(e, t) < HALF
    ensures Moved(Next(t)) == Some(SlotOf(e, t)) || SlotOf(e, Next(t)) == SlotOf(e, t)
  {
    hide Block, Digit, InDigits, Next;
    var c := Next(t);
    NextIs(e, t);
    HasDigits(e);
    HasDigits(t);
    HasDigits(c);
    TickDigits(
      e, Digit(e, 0), Block(e, 0), Digit(e, 1), Block(e, 1), Digit(e, 2), Block(e, 2), Digit(e, 3), Block(e, 3),
      t, Digit(t, 0), Block(t, 0), Digit(t, 1), Block(t, 1), Digit(t, 2), Block(t, 2), Digit(t, 3), Block(t, 3),
      c, Digit(c, 0), Block(c, 0), Digit(c, 1), Block(c, 1), Digit(c, 2), Block(c, 2), Digit(c, 3), Block(c, 3));
  }

  /** Slot 0 of the three lower levels is never used by a pending node. */
  lemma SlotZeroUnused(e: int, t: int)
    requires 0 <= e < WORD && 0 <= t < WORD && Ahead(e, t) < HALF
    ensures SlotOf(e, t).Far? && SlotOf(e, t).i == 0 ==> SlotOf(e, t).level == 3
  {
    hide Block, Digit;
    HasDigits(e);
    HasDigits(t);
  }

  /** A node sits in the slot of the current tick exactly when it expires now. */
  lemma DueSlot(e: int, t: int)
    requires 0 <= e < WORD && 0 <= t < WORD
    ensures SlotOf(e, t) == Near(Digit(t, 0)) <==> e == t
  {
  }

  lemma AheadIs(e: int, t: int, delay: int)
    requires 0 <= e < WORD && 0 <= t < WORD && 0 <= delay < WORD
    ensures Ahead(e, t) == delay <==> e == (delay + t) % WORD
  {
  }

  lemma NextTick(now: nat)
    ensures Next(now % WORD) == (now + 1) % WORD
  {
  }

  /** Events of one expiry before and after the list of `m` is handed out: they were in slot
      `s0` and belong to slot `s1` now. */
  lemma HandOut(m: Slot, s: Slot, s0: Slot, s1: Slot, here: seq<Event>, there: seq<Event>, all: seq<Event>)
    requires here == if s == s0 then all else []
    requires there == if m == s0 then all else []
    requires all != [] ==> m == s0 || s1 == s0
    ensures (if s == m then [] else here) + (if s == s1 then there else []) == if s == s1 then all else []
  {
  }

  // Lists.

  /** The events of the nodes that expire at `e`, in list order. */
  function Events(list: seq<TimerNode>, e: int): seq<Event> {
    if list == [] then []
    else (if list[0].expire == e then [list[0].event] else []) + Events(list[1..], e)
  }

  lemma {:induction false} EventsConcat(a: seq<TimerNode>, b: seq<TimerNode>, e: int)
    ensures Events(a + b, e) == Events(a, e) + Events(b, e)
  {
    if a == [] {
      assert a + b == b;
    } else {
      EventsConcat(a[1..], b, e);
      var head := if a[0].expire == e then [a[0].event] else [];
      assert (a + b)[0] == a[0] && (a + b)[1..] == a[1..] + b;
      Regroup(head, Events(a[1..], e), Events(b, e));
    }
  }

  lemma EventsSnoc(a: seq<TimerNode>, n: TimerNode, e: int)
    ensures Events(a + [n], e) == Events(a, e) + if n.expire == e then [n.event] else []
  {
    EventsConcat(a, [n], e);
  }

  /** The events of each expiry in each list. */
  type Holding = imap<(Slot, int), seq<Event>>

  /** Behind what the lists held before, they hold the nodes of `list` where the clock puts them. */
  ghost predicate HandedOut(before: Holding, after: Holding, list: seq<TimerNode>, time: nat) {
    forall s, e :: InRange(s) && 0 <= e < WORD ==>
      (s, e) in before && (s, e) in after &&
      after[(s, e)] == before[(s, e)] + if s == SlotOf(e, time) then Events(list, e) else []
  }

  lemma NothingHandedOut(held: Holding, time: nat)
    requires forall s, e :: InRange(s) && 0 <= e < WORD ==> (s, e) in held
    ensures HandedOut(held, held, [], time)
  {
    hide SlotOf, InRange;
  }

  lemma HandedOutMeans(before: Holding, after: Holding, list: seq<TimerNode>, time: nat)
    requires HandedOut(before, after, list, time)
    ensures forall s, e :: InRange(s) && 0 <= e < WORD ==>
      (s, e) in before && (s, e) in after &&
      after[(s, e)] == before[(s, e)] + if s == SlotOf(e, time) then Events(list, e) else []
  {
  }

  lemma HandedOn(before: Holding, held: Holding, after: Holding, done: seq<TimerNode>, node: TimerNode, time: nat)
    requires HandedOut(before, held, done, time) && HandedOut(held, after, [node], time)
    ensures HandedOut(before, after, done + [node], time)
  {
    hide SlotOf, Events, InRange;
    forall s, e | InRange(s) && 0 <= e < WORD
      ensures (s, e) in before && (s, e) in after
      ensures after[(s, e)] == before[(s, e)] + if s == SlotOf(e, time) then Events(done + [node], e) else []
    {
      EventsConcat(done, [node], e);
      if s == SlotOf(e, time) {
        Regroup(before[(s, e)], Events(done, e), Events([node], e));
      }
    }
  }

  lemma {:induction false} NoEvents(list: seq<TimerNode>, e: int)
    ensures Events(list, e) == [] <==> forall i :: 0 <= i < |list| ==> list[i].expire != e
  {
    if list != [] {
      NoEvents(list[1..], e);
      assert forall i :: 0 < i < |list| ==> list[i] == list[1..][i - 1];
      if Events(list[1..], e) != [] {
        var i :| 0 <= i < |list[1..]| && list[1..][i].expire == e;
        assert list[i + 1].expire == e;
      }
    }
  }

  /** The nodes of `list` with the tick they leave at. */
  function Stamped(list: seq<TimerNode>, now: nat): (r: seq<TimerNode>)
    ensures |r| == |list|
  {
    if list == [] then [] else [TimerNode(now, list[0].event)] + Stamped(list[1..], now)
  }

  lemma {:induction false} StampedEvents(list: seq<TimerNode>, e: int, now: nat, d: int)
    requires forall i :: 0 <= i < |list| ==> list[i].expire == e
    ensures Events(Stamped(list, now), d) == if d == now then Events(list, e) else []
    ensures forall i :: 0 <= i < |list| ==> Stamped(list, now)[i].expire == now
  {
    if list != [] {
      var head := [TimerNode(now, list[0].event)];
      StampedEvents(list[1..], e, now, d);
      EventsConcat(head, Stamped(list[1..], now), d);
    }
  }

  function Without(list: seq<TimerNode>, e: int): seq<TimerNode> {
    if list == [] then []
    else (if list[0].expire == e then [] else [list[0]]) + Without(list[1..], e)
  }

  lemma {:induction false} WithoutEvents(list: seq<TimerNode>, e: int, d: int)
    ensures Events(Without(list, e), d) == if d == e then [] else Events(list, d)
  {
    if list != [] {
      WithoutEvents(list[1..], e, d);
      EventsConcat(if list[0].expire == e then [] else [list[0]], Without(list[1..], e), d);
    }
  }

  lemma {:induction false} WithoutElements(list: seq<TimerNode>, e: int)
    ensures forall n :: n in Without(list, e) ==> n in list && n.expire != e
  {
    if list != [] {
      WithoutElements(list[1..], e);
    }
  }

  /** The first of the upper levels whose next block holds both ticks. */
  method FindLevel(e: int, current: int) returns (i: nat)
    requires Block(e, 0) != Block(current, 0)
    ensures i < 4 && SlotOf(e, current) == Far(i, Block(e, i) % TIME_LEVEL)
  {
    i := 0;
    var mask := TIME_NEAR * TIME_LEVEL;
    while i < 3
      invariant 0 <= i <= 3 && mask == Span(i + 1)
      invariant forall j :: 0 <= j <= i ==> Block(e, j) != Block(current, j)
      decreases 3 - i
    {
      BlockIsQuotient(e, i + 1);
      BlockIsQuotient(current, i + 1);
      if e / mask == current / mask { break; }
      mask := mask * TIME_LEVEL;
      i := i + 1;
    }
    assert i == 0 || i == 1 || i == 2 || i == 3;
    assert Digit(e, i + 1) == Block(e, i) % TIME_LEVEL;
  }

  ghost predicate OnSchedule(now: nat, pending: seq<TimerNode>, added: seq<TimerNode>, fired: seq<TimerNode>) {
    && (forall n :: n in pending ==> now <= n.expire < now + HALF)
    && (forall n :: n in fired ==> n.expire <= now)
    && (forall d :: Events(fired, d) + Events(pending, d) == Events(added, d))
  }

  lemma AddOnSchedule(now: nat, pending: seq<TimerNode>, added: seq<TimerNode>, fired: seq<TimerNode>, due: TimerNode)
    requires OnSchedule(now, pending, added, fired) && now <= due.expire < now + HALF
    ensures OnSchedule(now, pending + [due], added + [due], fired)
  {
    hide Events;
    forall d ensures Events(fired, d) + Events(pending + [due], d) == Events(added + [due], d) {
      EventsSnoc(pending, due, d);
      EventsSnoc(added, due, d);
    }
  }

  /** What can happen at the timer, each under its lock: a request, the removal of the due list, a tick. */
  datatype Step = Request(event: Event, delay: nat) | Take | Tick

  /** A timer without a wheel, whose clock does not wrap. */
  datatype Ideal = Ideal(now: nat, pending: seq<TimerNode>, fired: seq<TimerNode>, added: seq<TimerNode>)

  /** Events with the tick they leave at. */
  function At(events: seq<Event>, now: nat): seq<TimerNode> {
    if events == [] then [] else [TimerNode(now, events[0])] + At(events[1..], now)
  }

  /** A request is due that many ticks ahead; what is due leaves in insertion order; the clock goes
      on when nothing is due any more. */
  function IdealStep(s: Ideal, step: Step): Ideal {
    match step
    case Request(event, delay) =>
      var node := TimerNode(s.now + delay, event);
      s.(pending := s.pending + [node], added := s.added + [node])
    case Take => s.(fired := s.fired + At(Events(s.pending, s.now), s.now), pending := Without(s.pending, s.now))
    case Tick => if Events(s.pending, s.now) == [] then s.(now := s.now + 1) else s
  }

  function IdealRun(s: Ideal, schedule: seq<Step>): Ideal
    decreases |schedule|
  {
    if schedule == [] then s
    else IdealStep(IdealRun(s, schedule[..|schedule| - 1]), schedule[|schedule| - 1])
  }

  // What the ideal timer does over time.

  lemma {:induction false} AtEvents(events: seq<Event>, now: nat, e: int)
    ensures Events(At(events, now), e) == if e == now then events else []
  {
    if events != [] {
      var first := [TimerNode(now, events[0])];
      AtEvents(events[1..], now, e);
      EventsConcat(first, At(events[1..], now), e);
      assert events == [events[0]] + events[1..];
    }
  }

  lemma {:induction false} IdealConcat(s: Ideal, a: seq<Step>, b: seq<Step>)
    ensures IdealRun(s, a + b) == IdealRun(IdealRun(s, a), b)
    decreases |b|
  {
    hide IdealStep;
    if b == [] {
      assert a + b == a;
    } else {
      var n := |b| - 1;
      assert (a + b)[..|a + b| - 1] == a + b[..n];
      IdealConcat(s, a, b[..n]);
    }
  }

  /** `k` times what the update does in one tick. */
  function Rounds(k: nat): seq<Step> { if k == 0 then [] else Rounds(k - 1) + [Take, Tick] }

  /** The clock has gone on by `k` ticks, and what was due meanwhile has left, each at its tick. */
  ghost predicate WentOn(s: Ideal, s': Ideal, k: nat) {
    && s'.now == s.now + k && s'.added == s.added
    && (forall e :: Events(s'.fired, e) == Events(s.fired, e) + if s.now <= e < s.now + k then Events(s.pending, e) else [])
    && (forall e :: Events(s'.pending, e) == if s.now <= e < s.now + k then [] else Events(s.pending, e))
  }

  lemma TakeTick(s: Ideal)
    ensures WentOn(s, IdealStep(IdealStep(s, Take), Tick), 1)
  {
    hide Events, At, Without;
    var s1 := IdealStep(s, Take);
    var due := At(Events(s.pending, s.now), s.now);
    forall e ensures Events(s1.fired, e) == Events(s.fired, e) + if e == s.now then Events(s.pending, e) else [] {
      EventsConcat(s.fired, due, e);
      AtEvents(Events(s.pending, s.now), s.now, e);
    }
    forall e ensures Events(s1.pending, e) == if e == s.now then [] else Events(s.pending, e) {
      WithoutEvents(s.pending, s.now, e);
    }
  }

  lemma WentOnTwice(s: Ideal, s1: Ideal, s2: Ideal, k: nat)
    requires WentOn(s, s1, k) && WentOn(s1, s2, 1)
    ensures WentOn(s, s2, k + 1)
  {
    hide Events;
  }

  lemma {:induction false} AfterRounds(s: Ideal, k: nat)
    ensures WentOn(s, IdealRun(s, Rounds(k)), k)
  {
    hide IdealStep, Events, WentOn;
    if k == 0 {
      assert WentOn(s, s, 0) by { WentOnNone(s); }
    } else {
      var s1 := IdealRun(s, Rounds(k - 1));
      AfterRounds(s, k - 1);
      IdealConcat(s, Rounds(k - 1), [Take, Tick]);
      TwoSteps(s1, Take, Tick);
      TakeTick(s1);
      WentOnTwice(s, s1, IdealRun(s, Rounds(k)), k - 1);
    }
  }

  lemma WentOnNone(s: Ideal)
    ensures WentOn(s, s, 0)
  {
    hide Events;
  }

  lemma OneStep(s: Ideal, a: Step)
    ensures IdealRun(s, [a]) == IdealStep(s, a)
  {
    hide IdealStep;
    assert [a][..0] == [];
  }

  lemma TwoSteps(s: Ideal, a: Step, b: Step)
    ensures IdealRun(s, [a, b]) == IdealStep(IdealStep(s, a), b)
  {
    hide IdealStep, IdealRun;
    assert [a, b] == [a] + [b];
    IdealConcat(s, [a], [b]);
    OneStep(s, a);
    OneStep(IdealStep(s, a), b);
  }

  /** A requested timer has not left after fewer rounds than its delay, and leaves in the next one,
      behind what was due at that tick before. */
  lemma RequestFires(s: Ideal, event: Event, delay: nat, k: nat)
    requires 0 < delay && k <= delay + 1
    ensures
      var s' := IdealRun(s, [Request(event, delay)] + Rounds(k));
      var due := s.now + delay;
      && s'.now == s.now + k && s'.added == s.added + [TimerNode(due, event)]
      && Events(s'.fired, due) == Events(s.fired, due) + (if k <= delay then [] else Events(s.pending, due) + [event])
      && Events(s'.pending, due) == (if k <= delay then Events(s.pending, due) + [event] else [])
  {
    hide IdealStep, Events;
    var s1 := IdealStep(s, Request(event, delay));
    assert s1 == s.(pending := s.pending + [TimerNode(s.now + delay, event)], added := s.added + [TimerNode(s.now + delay, event)]) by {
      RequestIs(s, event, delay);
    }
    IdealConcat(s, [Request(event, delay)], Rounds(k));
    OneStep(s, Request(event, delay));
    AfterRounds(s1, k);
    EventsSnoc(s.pending, TimerNode(s.now + delay, event), s.now + delay);
  }

  lemma RequestIs(s: Ideal, event: Event, delay: nat)
    ensures IdealStep(s, Request(event, delay)) ==
      s.(pending := s.pending + [TimerNode(s.now + delay, event)], added := s.added + [TimerNode(s.now + delay, event)])
  {
  }

  lemma {:induction false} StampedIs(list: seq<TimerNode>, e: int, now: nat)
    requires forall i :: 0 <= i < |list| ==> list[i].expire == e
    ensures Stamped(list, now) == At(Events(list, e), now)
  {
    if list != [] {
      StampedIs(list[1..], e, now);
      assert Events(list, e) == [list[0].event] + Events(list[1..], e);
      assert Events(list, e)[1..] == Events(list[1..], e);
    }
  }

  class Timer {
    const near: array<seq<TimerNode>>
    const t: array2<seq<TimerNode>>
    var time: nat
    ghost var now: nat                    // ticks since the start, without wrap-around
    ghost var pending: seq<TimerNode>     // in insertion order, expiring at unwrapped ticks
    ghost var added: seq<TimerNode>       // everything ever added
    ghost var fired: seq<TimerNode>       // everything dispatched, with the tick of the dispatch

    ghost predicate Shape() {
      near.Length == TIME_NEAR && t.Length0 == 4 && t.Length1 == TIME_LEVEL
    }

    function List(s: Slot): seq<TimerNode>
      requires Shape() && InRange(s)
      reads near, t
    {
      if s.Near? then near[s.i] else t[s.level, s.i]
    }

    /** Each pending node is in the list of the slot its expiry and the clock determine; the
        nodes with the same expiry are there in insertion order. */
    ghost predicate Placed()
      requires Shape()
      reads this, near, t
    {
      && (forall s, e :: InRange(s) && 0 <= e < WORD ==>
            Events(List(s), e) == if s == SlotOf(e, time) then Events(pending, now + Ahead(e, time)) else [])
      && Wrapped()
    }

    /** Nothing is overdue, and each timer ever added has either been dispatched at its tick or is
        still pending. */
    ghost predicate Punctual()
      reads this
    {
      OnSchedule(now, pending, added, fired)
    }

    ghost predicate Valid()
      reads this, near, t
    {
      Shape() && time == now % WORD && Placed() && Punctual()
    }

    constructor ()
      ensures Valid() && fresh(near) && fresh(t)
      ensures now == 0 && added == [] && fired == []
    {
      near := new seq<TimerNode>[TIME_NEAR](_ => []);
      t := new seq<TimerNode>[4, TIME_LEVEL]((_, _) => []);
      time := 0;
      now, pending, added, fired := 0, [], [], [];
    }

    /** Appends a node to the list of a slot. */
    method Link(slot: Slot, node: TimerNode)
      requires Shape() && InRange(slot)
      modifies near, t
      ensures forall s :: InRange(s) ==> List(s) == if s == slot then old(List(s)) + [node] else old(List(s))
    {
      if slot.Near? {
        near[slot.i] := near[slot.i] + [node];
      } else {
        t[slot.level, slot.i] := t[slot.level, slot.i] + [node];
      }
    }

    method AddNode(node: TimerNode)
      requires Shape() && node.expire < WORD && time < WORD && Wrapped()
      modifies near, t
      ensures Wrapped() && InRange(SlotOf(node.expire, time))
      ensures forall s, e :: InRange(s) && 0 <= e < WORD ==>
        Events(List(s), e) == old(Events(List(s), e))
          + if s == SlotOf(e, time) && e == node.expire then [node.event] else []
    {
      var e, current := node.expire, time;
      ghost var slot := SlotOf(e, current);
      if e / TIME_NEAR == current / TIME_NEAR {
        Link(Near(e % TIME_NEAR), node);
      } else {
        var i := FindLevel(e, current);
        BlockIsQuotient(e, i);
        Link(Far(i, e / Span(i) % TIME_LEVEL), node);
      }
      assert forall s :: InRange(s) ==> List(s) == if s == slot then old(List(s)) + [node] else old(List(s));
      hide SlotOf, Events;
      forall s, e | InRange(s) && 0 <= e < WORD
        ensures Events(List(s), e) == old(Events(List(s), e)) + if e == node.expire && s == slot then [node.event] else []
      {
        EventsSnoc(old(List(s)), node, e);
      }
    }

    /** What the list of slot `s` holds for expiry `e` once the list of `m` has been handed out again. */
    ghost function Moving(m: Slot, s: Slot, e: int): seq<Event>
      requires Shape() && InRange(s) && InRange(m)
      reads this, near, t
    {
      (if s == m then [] else Events(List(s), e)) + (if s == SlotOf(e, time) then Events(List(m), e) else [])
    }

    lemma NothingYet()
      ensures forall e :: Events([], e) == []
    {
    }

    ghost predicate Wrapped()
      requires Shape()
      reads near, t
    {
      forall s, n :: InRange(s) && n in List(s) ==> n.expire < WORD
    }

    /** Empties the list of an upper slot. */
    method LinkClear(level: nat, idx: nat) returns (list: seq<TimerNode>)
      requires Shape() && InRange(Far(level, idx)) && Wrapped()
      modifies t
      ensures Wrapped() && list == old(List(Far(level, idx))) && forall n :: n in list ==> n.expire < WORD
      ensures forall s, e :: InRange(s) ==> Events(List(s), e) == if s == Far(level, idx) then [] else old(Events(List(s), e))
    {
      hide Events;
      NothingYet();
      list := t[level, idx];
      assert list == List(Far(level, idx));
      t[level, idx] := [];
    }

    ghost function Held(): (h: Holding)
      requires Shape()
      reads near, t
      ensures forall s, e :: InRange(s) && 0 <= e < WORD ==> (s, e) in h && h[(s, e)] == Events(List(s), e)
    {
      imap s, e | InRange(s) && 0 <= e < WORD :: (s, e) := Events(List(s), e)
    }

    lemma HeldWith(before: Holding, node: TimerNode)
      requires Shape()
      requires forall s, e :: InRange(s) && 0 <= e < WORD ==>
        (s, e) in before &&
        Events(List(s), e) == before[(s, e)] + if s == SlotOf(e, time) && e == node.expire then [node.event] else []
      ensures HandedOut(before, Held(), [node], time)
    {
      hide SlotOf, List, InRange, Events;
      NothingYet();
      assert [] + [node] == [node];
      forall e ensures Events([node], e) == if e == node.expire then [node.event] else [] {
        EventsSnoc([], node, e);
      }
    }

    /** AddNode, stated of what all lists hold. */
    method AddAgain(node: TimerNode)
      requires Shape() && node.expire < WORD && time < WORD && Wrapped()
      modifies near, t
      ensures Wrapped() && HandedOut(old(Held()), Held(), [node], time)
    {
      hide Wrapped, Events, SlotOf, List, InRange, HandedOut;
      ghost var held := Held();
      AddNode(node);
      HeldWith(held, node);
    }

    method MoveList(level: nat, idx: nat)
      requires Shape() && InRange(Far(level, idx)) && time < WORD && Wrapped()
      modifies near, t
      ensures Wrapped()
      ensures forall s, e :: InRange(s) && 0 <= e < WORD ==> Events(List(s), e) == old(Moving(Far(level, idx), s, e))
    {
      hide Events, SlotOf, List, InRange, Wrapped, HandedOut, Held;
      var current := LinkClear(level, idx);
      ghost var moved, done, before := current, [], Held();
      NothingHandedOut(before, time);
      while current != []
        modifies near, t
        invariant moved == done + current
        invariant Wrapped() && HandedOut(before, Held(), done, time)
        decreases |current|
      {
        var node := current[0];
        assert node in moved;
        ghost var held := Held();
        AddAgain(node);
        HandedOn(before, held, Held(), done, node, time);
        done := done + [node];
        current := current[1..];
      }
      assert done == moved;
      HandedOutMeans(before, Held(), moved, time);
    }

    /** Moves the one list whose block the clock has just entered. */
    method Cascade()
      requires Shape() && 0 <= time < WORD && Wrapped()
      modifies near, t
      ensures Wrapped()
      ensures Moved(time) == None ==> forall s :: InRange(s) ==> List(s) == old(List(s))
      ensures Moved(time).Some? ==> InRange(Moved(time).value) && forall s, e :: InRange(s) && 0 <= e < WORD ==>
        Events(List(s), e) == old(Moving(Moved(time).value, s, e))
    {
      hide SlotOf, Events;
      var ct := time;
      if ct == 0 {
        MoveList(3, 0);
      } else {
        var high := ct / TIME_NEAR;
        var i := 0;
        var mask := TIME_NEAR;
        HasDigits(ct);
        while i < 4 && ct % mask == 0
          modifies near, t
          invariant unchanged(near) && unchanged(t)
          invariant 0 <= i < 4 && mask == Span(i) && high == Block(ct, i)
          invariant forall j :: 1 <= j <= i ==> Digit(ct, j) == 0
          decreases 4 - i
        {
          BlockEnds(ct, i);
          var idx := high % TIME_LEVEL;
          assert idx == Digit(ct, i + 1);
          if idx != 0 {
            assert Moved(ct) == Some(Far(i, idx)) by {
              assert i == 0 || i == 1 || i == 2 || i == 3;
              assert forall j :: 0 <= j <= i ==> Digit(ct, j) == 0;
            }
            MoveList(i, idx);
            return;
          }
          mask := mask * TIME_LEVEL;
          high := high / TIME_LEVEL;
          i := i + 1;
        }
        BlockEnds(ct, i);
      }
    }

    /** Adds a timer that is due after `delay` ticks. */
    method Add(event: Event, delay: nat)
      requires Valid() && 1 <= delay < HALF
      modifies this, near, t
      ensures Valid() && now == old(now) && fired == old(fired)
      ensures pending == old(pending) + [TimerNode(now + delay, event)]
      ensures added == old(added) + [TimerNode(now + delay, event)]
    {
      hide SlotOf, Events, Ahead, List, Wrapped, OnSchedule, InRange;
      var node := TimerNode((delay + time) % WORD, event);
      ghost var due := TimerNode(now + delay, event);
      AddNode(node);
      forall s, e | InRange(s) && 0 <= e < WORD
        ensures Events(List(s), e) ==
          if s == SlotOf(e, time) then Events(pending + [due], now + Ahead(e, time)) else []
      {
        assert old(Events(List(s), e)) == if s == SlotOf(e, time) then Events(pending, now + Ahead(e, time)) else [];
        EventsSnoc(pending, due, now + Ahead(e, time));
        AheadIs(e, time, delay);
      }
      AddOnSchedule(now, pending, added, fired, due);
      pending := pending + [due];
      added := added + [due];
    }

    /** Nothing due in the list of the current tick: nothing due at all. */
    lemma ShiftReady()
      requires Valid() && near[time % TIME_NEAR] == []
      ensures forall n :: n in pending ==> now < n.expire < now + HALF
    {
      hide SlotOf, Events, Moved, Block;
      DueSlot(time, time);
      assert List(Near(time % TIME_NEAR)) == [];
      NoEvents([], time);
      NoEvents(pending, now);
    }

    /** What a tick does to the timers that expire at `e`. */
    lemma ShiftAhead(e: int)
      requires 0 <= e < WORD && time == now % WORD
      requires forall n :: n in pending ==> now < n.expire < now + HALF
      ensures Events(pending, now + Ahead(e, time)) == Events(pending, now + 1 + Ahead(e, Next(time)))
      ensures Events(pending, now + Ahead(e, time)) != [] ==>
        Moved(Next(time)) == Some(SlotOf(e, time)) || SlotOf(e, Next(time)) == SlotOf(e, time)
    {
      hide SlotOf, Moved, Events;
      NoEvents(pending, now + Ahead(e, time));
      NoEvents(pending, now + 1 + Ahead(e, Next(time)));
      if 1 <= Ahead(e, time) < HALF {
        OthersKeepTheirSlot(e, time);
      }
    }

    /** One tick, once nothing is due any more. */
    method Shift()
      requires Valid() && near[time % TIME_NEAR] == []
      modifies this, near, t
      ensures Valid() && now == old(now) + 1
      ensures pending == old(pending) && added == old(added) && fired == old(fired)
    {
      hide SlotOf, Events, Ahead, Moved, Block;
      ShiftReady();
      forall e | 0 <= e < WORD
        ensures Events(pending, now + Ahead(e, time)) == Events(pending, now + 1 + Ahead(e, Next(time)))
        ensures Events(pending, now + Ahead(e, time)) != [] ==>
          Moved(Next(time)) == Some(SlotOf(e, time)) || SlotOf(e, Next(time)) == SlotOf(e, time)
      {
        ShiftAhead(e);
      }
      ghost var t0 := time;
      time := (time + 1) % WORD;
      Cascade();
      now := now + 1;
      hide Next;
      assert time == Next(t0) && time == now % WORD by { NextTick(old(now)); }
      if Moved(time).Some? {
        var m := Moved(time).value;
        forall s, e | InRange(s) && 0 <= e < WORD
          ensures Events(List(s), e) == if s == SlotOf(e, time) then Events(pending, now + Ahead(e, time)) else []
        {
          HandOut(m, s, SlotOf(e, t0), SlotOf(e, time), old(Events(List(s), e)), old(Events(List(m), e)),
                  Events(pending, now + Ahead(e, time)));
        }
      }
    }

    /** Takes the list of the current tick: the timers due now, in insertion order. */
    method TakeDue() returns (current: seq<TimerNode>)
      requires Valid()
      modifies this, near
      ensures Valid() && now == old(now) && time == old(time) && added == old(added)
      ensures near[time % TIME_NEAR] == []
      ensures forall i :: 0 <= i < |current| ==> current[i].expire == time
      ensures Events(current, time) == old(Events(pending, now))
      ensures fired == old(fired) + Stamped(current, now) && pending == Without(old(pending), now)
    {
      hide SlotOf, Events, Ahead, Stamped, Without;
      var idx := time % TIME_NEAR;
      current := near[idx];
      ghost var due := Near(idx);
      assert List(due) == current;
      AllDue(current);
      near[idx] := [];
      fired := fired + Stamped(current, now);
      pending := Without(pending, now);
      WithoutElements(old(pending), now);
      NothingYet();
      forall s, e | InRange(s) && 0 <= e < WORD
        ensures Events(List(s), e) == if s == SlotOf(e, time) then Events(pending, now + Ahead(e, time)) else []
      {
        DueSlot(e, time);
        AheadIs(e, time, 0);
        WithoutEvents(old(pending), now, now + Ahead(e, time));
      }
      forall d ensures Events(fired, d) + Events(pending, d) == Events(added, d) {
        WithoutEvents(old(pending), now, d);
        StampedEvents(current, time, now, d);
        EventsConcat(old(fired), Stamped(current, now), d);
      }
      StampedEvents(current, time, now, now);
    }

    /** The list of the current tick holds exactly the timers that are due. */
    lemma AllDue(current: seq<TimerNode>)
      requires Valid() && current == List(Near(time % TIME_NEAR))
      ensures forall i :: 0 <= i < |current| ==> current[i].expire == time
      ensures Events(current, time) == Events(pending, now)
    {
      hide SlotOf, Events;
      var due := Near(time % TIME_NEAR);
      forall i | 0 <= i < |current| ensures current[i].expire == time {
        var e := current[i].expire;
        assert current[i] in List(due);
        NoEvents(List(due), e);
        DueSlot(e, time);
      }
      DueSlot(time, time);
    }

    /** Every timer added fires exactly once, at the tick it asked for, and timers of one tick fire in
        the order they were added. */
    lemma OnTime(d: nat)
      requires Valid()
      ensures d < now ==> Events(fired, d) == Events(added, d)
      ensures d == now ==> Events(fired, d) <= Events(added, d)
      ensures d > now ==> Events(fired, d) == [] && Events(pending, d) == Events(added, d)
    {
      hide Events, Placed;
      NoEvents(pending, d);
      NoEvents(fired, d);
    }

    /** Dispatches what is due. The lock is open during the dispatch, but no request can become due
        within the same tick. */
    method Execute() returns (dispatched: seq<Event>)
      requires Valid()
      modifies this, near
      ensures Valid() && now == old(now) && time == old(time) && added == old(added)
      ensures near[time % TIME_NEAR] == [] && Events(pending, now) == []
      ensures dispatched == old(Events(pending, now))
      ensures forall d :: d != now ==> Events(pending, d) == old(Events(pending, d))
    {
      hide SlotOf, Events, Placed;
      var idx := time % TIME_NEAR;
      dispatched := [];
      ghost var p0 := pending;
      while near[idx] != []
        invariant Valid() && now == old(now) && time == old(time) && added == old(added)
        invariant dispatched + Events(pending, now) == Events(p0, now)
        invariant forall d :: d != now ==> Events(pending, d) == Events(p0, d)
        decreases |near[idx]|
      {
        forall d { WithoutEvents(pending, now, d); }
        ghost var due := Events(pending, now);
        var current := TakeDue();
        var events := EventList(current);
        dispatched := dispatched + events;
      }
      AllDue(near[idx]);
      NoEvents([], time);
    }

    /** The message of each node of a dispatched list, in order. */
    method EventList(current: seq<TimerNode>) returns (events: seq<Event>)
      requires forall i :: 0 <= i < |current| ==> current[i].expire == time
      ensures events == Events(current, time)
    {
      events := [];
      var rest := current;
      while rest != []
        invariant forall i :: 0 <= i < |rest| ==> rest[i].expire == time
        invariant events + Events(rest, time) == Events(current, time)
      {
        events := events + [rest[0].event];
        rest := rest[1..];
      }
    }

    /** The periodic update: what is due now, one tick, what is due then. */
    method Update() returns (before: seq<Event>, after: seq<Event>)
      requires Valid()
      modifies this, near, t
      ensures Valid() && now == old(now) + 1 && added == old(added)
      ensures before == old(Events(pending, now)) && after == old(Events(pending, now + 1))
      ensures Events(pending, now) == []
    {
      hide Events, Placed, SlotOf;
      before := Execute();
      Shift();
      after := Execute();
    }

    ghost function State(): Ideal
      reads this
    {
      Ideal(now, pending, fired, added)
    }

    /** One locked section. A tick only happens when nothing is due. */
    method Act(step: Step)
      requires Valid() && (step.Request? ==> 1 <= step.delay < HALF)
      modifies this, near, t
      ensures Valid() && State() == IdealStep(old(State()), step)
    {
      hide Events, Placed, SlotOf, Stamped, At, Without;
      match step {
        case Request(event, delay) => Add(event, delay);
        case Take =>
          var current := TakeDue();
          StampedIs(current, time, now);
        case Tick =>
          DueNow();
          if near[time % TIME_NEAR] == [] { Shift(); }
      }
    }

    /** The list of the current tick is empty exactly when nothing is due. */
    lemma DueNow()
      requires Valid()
      ensures near[time % TIME_NEAR] == [] <==> Events(pending, now) == []
    {
      hide Events, SlotOf;
      var current := near[time % TIME_NEAR];
      assert current == List(Near(time % TIME_NEAR));
      AllDue(current);
      assert current != [] ==> current[0].expire == time;
      NoEvents(current, time);
    }

    /** Any interleaving of requests with the locked sections of the update does what it does to a
        timer without a wheel; what has been due has fired once, at its tick, in the order added. */
    method Run(schedule: seq<Step>)
      requires Valid()
      requires forall i :: 0 <= i < |schedule| && schedule[i].Request? ==> 1 <= schedule[i].delay < HALF
      modifies this, near, t
      ensures Valid() && State() == IdealRun(old(State()), schedule)
      ensures forall d :: 0 <= d < now ==> Events(fired, d) == Events(added, d)
    {
      hide Events, IdealStep;
      hide Valid;
      assert schedule[..0] == [];
      for i := 0 to |schedule|
        invariant Valid() && State() == IdealRun(old(State()), schedule[..i])
      {
        assert schedule[..i + 1][..i] == schedule[..i];
        Act(schedule[i]);
      }
      assert schedule[..|schedule|] == schedule;
      forall d | 0 <= d < now ensures Events(fired, d) == Events(added, d) { OnTime(d); }
    }
  }
}
