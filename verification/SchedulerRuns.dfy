/** What a run does to the messages and the services, told from the list of its steps. */
module SchedulerRuns {
  import opened Scheduler
  import opened SchedulerProgress

  predicate Listed(s: State, c: Id) { Known(s, c) && s.services[c].inTable }

  predicate IsIdle(s: State, t: Tid) { t in s.threads && s.threads[t] == Idle }

  // Messages.

  /** For each thread the message it took on to send, and to which service. */
  type Outbox = map<Tid, (Id, Message)>

  function Posted(s: State, out: Outbox, t: Tid, a: Action): Outbox {
    match a
    case StartSend(c, m) => if IsIdle(s, t) && Listed(s, c) then out[t := (c, m)] else out
    case PushMessage => out - {t}
    case _ => out
  }

  function Arrived(out: Outbox, t: Tid, a: Action, c: Id): seq<Message> {
    if a.PushMessage? && t in out && out[t].0 == c then [out[t].1] else []
  }

  /** The messages of the sends to `c` in a run: a send is taken if its thread is idle and the
      service is in the table, and arrives when that thread pushes. */
  function Delivered(s: State, out: Outbox, steps: seq<(Tid, Action)>, c: Id): seq<Message>
    decreases |steps|
  {
    if steps == [] then []
    else
      var (t, a) := steps[0];
      Arrived(out, t, a, c) + Delivered(Step(s, t, a), Posted(s, out, t, a), steps[1..], c)
  }

  function PushedTo(s: State, c: Id): seq<Message> { if Known(s, c) then s.services[c].pushed else [] }

  /** Whether thread `t` is sending, and what. */
  predicate SendsAs(s: State, out: Outbox, t: Tid) {
    if t in out then t in s.threads && s.threads[t] == Sending(out[t].0, out[t].1)
    else t in s.threads ==> !s.threads[t].Sending?
  }

  ghost predicate OutboxIs(s: State, out: Outbox) { forall t :: SendsAs(s, out, t) }

  lemma OutboxStep(s: State, out: Outbox, t: Tid, a: Action)
    requires Inv(s) && OutboxIs(s, out)
    ensures OutboxIs(Step(s, t, a), Posted(s, out, t, a))
  {
    if t in s.threads { PcKnown(s, t); }
    hide Inv, Step, Posted, Target;
    var s', out' := Step(s, t, a), Posted(s, out, t, a);
    OnlyOwn(s, t, a);
    assert SendsAs(s, out, t);
    OwnOutbox(s, out, t, a);
    OtherOutbox(s, out, t, a);
    forall u ensures SendsAs(s', out', u) { assert SendsAs(s, out, u); }
  }

  lemma OwnOutbox(s: State, out: Outbox, t: Tid, a: Action)
    requires SendsAs(s, out, t)
    requires t in s.threads && s.threads[t].Sending? ==> Known(s, s.threads[t].c)
    ensures SendsAs(Step(s, t, a), Posted(s, out, t, a), t)
  {
  }

  lemma OtherOutbox(s: State, out: Outbox, t: Tid, a: Action)
    ensures forall u :: u != t ==> (u in Posted(s, out, t, a) <==> u in out)
    ensures forall u :: u != t && u in out ==> Posted(s, out, t, a)[u] == out[u]
  {
  }

  lemma OnlyOwn(s: State, t: Tid, a: Action)
    ensures Step(s, t, a).threads.Keys == s.threads.Keys
    ensures forall u :: u in s.threads && u != t ==> Step(s, t, a).threads[u] == s.threads[u]
  {
  }

  lemma PushedStep(s: State, out: Outbox, t: Tid, a: Action, c: Id)
    requires Inv(s) && OutboxIs(s, out)
    ensures PushedTo(Step(s, t, a), c) == PushedTo(s, c) + Arrived(out, t, a, c)
  {
    assert SendsAs(s, out, t);
    if a.PushMessage? && t in out {
      PcKnown(s, t);
      hide Inv, Step;
      PushMessageStep(s, t);
    } else {
      hide Inv, OutboxIs;
      NothingPushed(s, t, a, c);
    }
  }

  lemma NothingPushed(s: State, t: Tid, a: Action, c: Id)
    requires !(a.PushMessage? && t in s.threads && s.threads[t].Sending?)
    ensures PushedTo(Step(s, t, a), c) == PushedTo(s, c)
  {
  }

  lemma {:induction false} DeliveredFrom(s: State, out: Outbox, steps: seq<(Tid, Action)>, c: Id)
    requires Inv(s) && OutboxIs(s, out)
    ensures PushedTo(Run(s, steps), c) == PushedTo(s, c) + Delivered(s, out, steps, c)
    decreases |steps|
  {
    hide Inv, Step, PushedTo, Arrived, Posted, OutboxIs;
    if steps != [] {
      var (t, a) := steps[0];
      var s1, out1 := Step(s, t, a), Posted(s, out, t, a);
      StepKeeps(s, t, a);
      OutboxStep(s, out, t, a);
      PushedStep(s, out, t, a, c);
      DeliveredFrom(s1, out1, steps[1..], c);
      assert PushedTo(s, c) + Arrived(out, t, a, c) + Delivered(s1, out1, steps[1..], c)
          == PushedTo(s, c) + (Arrived(out, t, a, c) + Delivered(s1, out1, steps[1..], c));
    }
  }

  /** What was pushed to a service in a run is what was sent to it, in the order of arrival. */
  lemma PushedIsSent(tids: set<Tid>, steps: seq<(Tid, Action)>, c: Id)
    requires Known(Run(Start(tids), steps), c)
    ensures Run(Start(tids), steps).services[c].pushed == Delivered(Start(tids), map[], steps, c)
  {
    hide Run, Inv, Delivered;
    StartHolds(tids);
    assert OutboxIs(Start(tids), map[]);
    DeliveredFrom(Start(tids), map[], steps, c);
  }

  // Services.

  /** The services that a step condemns: those killed, and the one whose init function fails. */
  function CondemnedBy(s: State, t: Tid, a: Action): set<Id> {
    match a
    case Kill(c) => if IsIdle(s, t) && Known(s, c) then {c} else {}
    case InitDone(ok) => if !ok && t in s.threads && s.threads[t].Creating? then {s.threads[t].q} else {}
    case _ => {}
  }

  function Condemned(s: State, steps: seq<(Tid, Action)>): set<Id>
    decreases |steps|
  {
    if steps == [] then {}
    else
      var (t, a) := steps[0];
      CondemnedBy(s, t, a) + Condemned(Step(s, t, a), steps[1..])
  }

  /** The thread has seen the init function of `q` fail and is about to retire it. */
  predicate WillRetire(pc: Pc, q: Id) {
    match pc
    case Releasing(_, a) => a == Retire(q)
    case Deleting(_, a) => a == Retire(q)
    case FailRetiring(d) => d == q
    case _ => false
  }

  ghost predicate Retiring(s: State, q: Id) { exists t :: t in s.threads && WillRetire(s.threads[t], q) }

  /** Out of the table, or soon to be. */
  ghost predicate IsGone(s: State, q: Id) {
    && Known(s, q)
    && (!s.services[q].inTable || Retiring(s, q))
  }

  predicate OwnGone(s: State, t: Tid, q: Id) {
    Known(s, q) && (!s.services[q].inTable || (t in s.threads && WillRetire(s.threads[t], q)))
  }

  lemma OwnStep(s: State, t: Tid, a: Action, q: Id)
    requires t in s.threads && s.threads[t] != Idle ==> Known(s, Target(s.threads[t]))
    requires t in s.threads && WillRetire(s.threads[t], q) ==> Known(s, q)
    ensures OwnGone(Step(s, t, a), t, q) <==> OwnGone(s, t, q) || q in CondemnedBy(s, t, a)
  {
  }

  lemma StaysKnown(s: State, t: Tid, a: Action, q: Id)
    requires t in s.threads && s.threads[t] != Idle ==> Known(s, Target(s.threads[t]))
    ensures Known(s, q) ==> Known(Step(s, t, a), q)
    ensures q in CondemnedBy(s, t, a) ==> Known(s, q)
  {
  }

  ghost predicate OthersRetire(s: State, t: Tid, q: Id) {
    exists u :: u in s.threads && u != t && WillRetire(s.threads[u], q)
  }

  lemma RetiringIs(s: State, t: Tid, q: Id)
    ensures Retiring(s, q) <==> OthersRetire(s, t, q) || (t in s.threads && WillRetire(s.threads[t], q))
  {
    hide WillRetire;
  }

  lemma OthersSame(s: State, s': State, t: Tid, q: Id)
    requires s'.threads.Keys == s.threads.Keys && forall u :: u in s.threads && u != t ==> s'.threads[u] == s.threads[u]
    ensures OthersRetire(s', t, q) <==> OthersRetire(s, t, q)
  {
    hide WillRetire;
  }

  lemma GoneStep(s: State, t: Tid, a: Action, q: Id)
    requires Inv(s)
    ensures IsGone(Step(s, t, a), q) <==> IsGone(s, q) || q in CondemnedBy(s, t, a)
  {
    if t in s.threads && s.threads[t] != Idle { PcKnown(s, t); }
    if !Known(s, q) { NoneUnknown(s, q); }
    hide Inv, Step, WillRetire, CondemnedBy, Retiring, OthersRetire;
    var s' := Step(s, t, a);
    OnlyOwn(s, t, a);
    RetiringIs(s, t, q);
    RetiringIs(s', t, q);
    OthersSame(s, s', t, q);
    OwnStep(s, t, a, q);
    StaysKnown(s, t, a, q);
  }

  lemma NoneUnknown(s: State, q: Id)
    requires Inv(s) && !Known(s, q)
    ensures !Retiring(s, q)
  {
    forall t | t in s.threads ensures !WillRetire(s.threads[t], q) {
      ThreadOk(s, t);
      HeldWhileRetiring(s.threads[t], q);
    }
  }

  lemma HeldWhileRetiring(pc: Pc, q: Id)
    ensures WillRetire(pc, q) ==> q in Queues(pc)
  {
  }

  lemma {:induction false} GoneFrom(s: State, steps: seq<(Tid, Action)>, q: Id)
    requires Inv(s)
    ensures IsGone(Run(s, steps), q) <==> IsGone(s, q) || q in Condemned(s, steps)
    decreases |steps|
  {
    hide Inv, Step, IsGone, CondemnedBy;
    if steps != [] {
      var (t, a) := steps[0];
      StepKeeps(s, t, a);
      GoneStep(s, t, a, q);
      GoneFrom(Step(s, t, a), steps[1..], q);
    }
  }

  /** A service is out of the table, or about to be taken out by its creator, if and only if the run
      killed it or its init function failed. */
  lemma GoneExactly(tids: set<Tid>, steps: seq<(Tid, Action)>, q: Id)
    requires Known(Run(Start(tids), steps), q)
    ensures
      var s := Run(Start(tids), steps);
      !s.services[q].inTable || Retiring(s, q) <==> q in Condemned(Start(tids), steps)
  {
    hide Run, Inv, Condemned;
    StartHolds(tids);
    GoneFrom(Start(tids), steps, q);
    assert !Known(Start(tids), q);
  }

  /** Once all threads are idle and no queue waits, a service is in the table exactly if nothing
      condemned it, and then each message sent to it was dispatched, in the order of arrival; of
      every other service they were dispatched or, after those, dropped. */
  lemma EverySendIsHandled(tids: set<Tid>, steps: seq<(Tid, Action)>, q: Id)
    requires Known(Run(Start(tids), steps), q)
    requires Run(Start(tids), steps).global == [] && AllIdle(Run(Start(tids), steps))
    ensures
      var o := Run(Start(tids), steps).services[q];
      && (o.inTable <==> q !in Condemned(Start(tids), steps))
      && Messages(o.popped) == Delivered(Start(tids), map[], steps, q)
      && (o.inTable ==> forall i :: 0 <= i < |o.popped| ==> o.popped[i].1 == Dispatched)
      && exists k :: TurnsAt(o.popped, k)
  {
    hide Run, Inv, Condemned, Delivered;
    GoneExactly(tids, steps, q);
    PushedIsSent(tids, steps, q);
    QuiescentMeansDone(tids, steps, q);
    AlwaysSafe(tids, steps, q);
  }
}
