/** What the functions of the C code do from start to end: each is a run of one thread, and its
    outcome in every state that the protocol allows is stated here in full. */
module SchedulerCalls {
  import opened Scheduler
  import opened SchedulerProgress
  import opened SchedulerRuns

  function Steps(t: Tid, actions: seq<Action>): seq<(Tid, Action)> {
    seq(|actions|, i requires 0 <= i < |actions| => (t, actions[i]))
  }

  /** The state after thread `t` did `actions` without interruption. */
  function Do(s: State, t: Tid, actions: seq<Action>): State { Run(s, Steps(t, actions)) }

  lemma DoNone(s: State, t: Tid)
    ensures Do(s, t, []) == s
  {
  }

  lemma DoOne(s: State, t: Tid, a: Action, more: seq<Action>)
    ensures Do(s, t, [a] + more) == Do(Step(s, t, a), t, more)
  {
    hide Step;
    assert Steps(t, [a] + more)[1..] == Steps(t, more);
  }

  lemma DoConcat(s: State, t: Tid, first: seq<Action>, more: seq<Action>)
    ensures Do(s, t, first + more) == Do(Do(s, t, first), t, more)
  {
    hide Run;
    assert Steps(t, first + more) == Steps(t, first) + Steps(t, more);
    RunConcat(s, Steps(t, first), Steps(t, more));
  }

  lemma Do3(s: State, t: Tid, a: Action, b: Action, c: Action)
    ensures Do(s, t, [a, b, c]) == Step(Step(Step(s, t, a), t, b), t, c)
  {
    hide Step, Do;
    DoOne(s, t, a, [b, c]);
    assert [a] + [b, c] == [a, b, c];
    DoOne(Step(s, t, a), t, b, [c]);
    assert [b] + [c] == [b, c];
    DoOne(Step(Step(s, t, a), t, b), t, c, []);
    assert [c] + [] == [c];
    DoNone(Step(Step(Step(s, t, a), t, b), t, c), t);
  }

  lemma Unmoved(s: State, t: Tid)
    requires IsIdle(s, t)
    ensures s.threads[t := Idle] == s.threads
  {
  }

  lemma ReferencesOf(s: State, c: Id)
    requires Inv(s) && Known(s, c)
    ensures s.services[c].ref == N(s.services[c].inTable) + Referrers(s.threads, c)
    ensures s.services[c].ref > 0 ==> !s.services[c].release
  {
    hide Holders, Referrers, Deleters, MessageInv, ThreadInv;
    assert ServiceInv(s, c);
  }

  /** mtask_context_push: the message is the last one of a service that is in the table, and
      its queue is linked if it was not; otherwise nothing happens. */
  lemma SendCall(s: State, t: Tid, c: Id, m: Message)
    requires Inv(s) && IsIdle(s, t)
    ensures
      var s' := Do(s, t, [StartSend(c, m), PushMessage, Action.Release]);
      if !Listed(s, c) then s' == s
      else
        var o := s.services[c];
        && s'.services == s.services[c := o.(msgs := o.msgs + [m], pushed := o.pushed + [m], inGlobal := true)]
        && s'.global == (if o.inGlobal then s.global else s.global + [c])
        && s'.threads == s.threads
  {
    Do3(s, t, StartSend(c, m), PushMessage, Action.Release);
    if Listed(s, c) {
      ReferencesOf(s, c);
      hide Inv, Do;
      var s1 := Step(s, t, StartSend(c, m));
      var s2 := Step(s1, t, PushMessage);
      assert s1.threads == s.threads[t := Sending(c, m)];
      assert s2.threads == s.threads[t := Releasing(c, Stop)];
      Unmoved(s, t);
    }
  }

  /** mtask_context_new: a new service that only the table refers to, linked and without messages. */
  lemma LaunchCall(s: State, t: Tid)
    requires IsIdle(s, t)
    ensures
      var s' := Do(s, t, [Create, InitDone(true), Action.Release] + [PublishQueue]);
      && s'.services == s.services + [Service(1, true, [], true, false, 0, 0, [], [])]
      && s'.global == s.global + [|s.services|]
      && s'.threads == s.threads
  {
    var q := |s.services|;
    DoConcat(s, t, [Create, InitDone(true), Action.Release], [PublishQueue]);
    Do3(s, t, Create, InitDone(true), Action.Release);
    var s3 := Step(Step(Step(s, t, Create), t, InitDone(true)), t, Action.Release);
    Launched(s, t, true);
    DoOne(s3, t, PublishQueue, []);
    assert [PublishQueue] + [] == [PublishQueue];
    DoNone(Step(s3, t, PublishQueue), t);
    Unmoved(s, t);
  }

  lemma Launched(s: State, t: Tid, ok: bool)
    requires IsIdle(s, t)
    ensures
      var q := |s.services|;
      Step(Step(Step(s, t, Create), t, InitDone(ok)), t, Action.Release) ==
        State(s.services + [Service(1, true, [], true, false, 0, 0, [], [])], s.global,
          s.threads[t := if ok then Publishing(q) else FailRetiring(q)])
  {
    var q := |s.services|;
    var s1 := Step(s, t, Create);
    var s2 := Step(s1, t, InitDone(ok));
    var s3 := Step(s2, t, Action.Release);
    assert s1 == State(s.services + [NewService()], s.global, s.threads[t := Creating(q)]);
    assert s2.services == s1.services && s2.threads == s.threads[t := Releasing(q, if ok then Publish(q) else Retire(q))];
    assert s3.services == s.services + [Service(1, true, [], true, false, 0, 0, [], [])];
    assert s3.threads == s.threads[t := if ok then Publishing(q) else FailRetiring(q)];
  }

  /** The same when the init function fails: the service has been deleted and freed. */
  lemma LaunchFails(s: State, t: Tid)
    requires IsIdle(s, t)
    ensures
      var s' := Do(s, t, [Create, InitDone(false), Action.Release] + [FailRetire, Action.Release, Mark] + [MqRelease, DropMessage, Free]);
      && s'.services == s.services + [Service(0, false, [], false, true, 1, 1, [], [])]
      && s'.global == s.global && s'.threads == s.threads
  {
    var q := |s.services|;
    DoConcat(s, t, [Create, InitDone(false), Action.Release] + [FailRetire, Action.Release, Mark], [MqRelease, DropMessage, Free]);
    DoConcat(s, t, [Create, InitDone(false), Action.Release], [FailRetire, Action.Release, Mark]);
    Do3(s, t, Create, InitDone(false), Action.Release);
    var s3 := Step(Step(Step(s, t, Create), t, InitDone(false)), t, Action.Release);
    Launched(s, t, false);
    Do3(s3, t, FailRetire, Action.Release, Mark);
    var s6 := Step(Step(Step(s3, t, FailRetire), t, Action.Release), t, Mark);
    Retired(s, s3, t);
    Do3(s6, t, MqRelease, DropMessage, Free);
    FreedNew(s, s6, t);
    Unmoved(s, t);
  }

  lemma Retired(s: State, s3: State, t: Tid)
    requires IsIdle(s, t)
    requires s3 == State(s.services + [Service(1, true, [], true, false, 0, 0, [], [])], s.global, s.threads[t := FailRetiring(|s.services|)])
    ensures
      Step(Step(Step(s3, t, FailRetire), t, Action.Release), t, Mark) ==
        State(s.services + [Service(0, false, [], true, true, 1, 0, [], [])], s.global, s.threads[t := Returning(|s.services|)])
  {
    var q := |s.services|;
    var s4 := Step(s3, t, FailRetire);
    var s5 := Step(s4, t, Action.Release);
    var s6 := Step(s5, t, Mark);
    assert s4.services == s.services + [Service(1, false, [], true, false, 0, 0, [], [])];
    assert s4.threads == s.threads[t := Releasing(q, GiveBack(q))];
    assert s5.services == s.services + [Service(0, false, [], true, false, 0, 0, [], [])];
    assert s5.threads == s.threads[t := Deleting(q, GiveBack(q))];
    assert s6.services == s.services + [Service(0, false, [], true, true, 1, 0, [], [])];
    assert s6.threads == s.threads[t := Returning(q)];
  }

  lemma FreedNew(s: State, s6: State, t: Tid)
    requires IsIdle(s, t)
    requires s6 == State(s.services + [Service(0, false, [], true, true, 1, 0, [], [])], s.global, s.threads[t := Returning(|s.services|)])
    ensures
      Step(Step(Step(s6, t, MqRelease), t, DropMessage), t, Free) ==
        State(s.services + [Service(0, false, [], false, true, 1, 1, [], [])], s.global, s.threads[t := Idle])
  {
    var q := |s.services|;
    var s7 := Step(s6, t, MqRelease);
    var s8 := Step(s7, t, DropMessage);
    var s9 := Step(s8, t, Free);
    assert s7.services == s6.services && s7.threads == s.threads[t := Dropping(q)];
    assert s8.services == s.services + [Service(0, false, [], false, true, 1, 0, [], [])];
    assert s8.threads == s.threads[t := Freeing(q)];
    assert s9.services == s.services + [Service(0, false, [], false, true, 1, 1, [], [])];
    assert s9.threads == s.threads[t := Idle];
  }

  /** mtask_handle_retire: the service leaves the table, and if nothing else referred to its
      context, the context is deleted and the queue marked and linked if it was not. */
  lemma RetireCall(s: State, t: Tid, c: Id)
    requires Inv(s) && IsIdle(s, t)
    ensures
      var s' := Do(s, t, [Kill(c), Action.Release, Mark]);
      if !Listed(s, c) then s' == s
      else
        var o := s.services[c];
        && s'.threads == s.threads
        && if Referrers(s.threads, c) > 0 then
             s'.services == s.services[c := o.(inTable := false, ref := o.ref - 1)] && s'.global == s.global
           else
             && s'.services == s.services[c := o.(inTable := false, ref := 0, release := true, deletions := o.deletions + 1)]
             && s'.global == if o.inGlobal then s.global else s.global + [c]
  {
    Do3(s, t, Kill(c), Action.Release, Mark);
    if Listed(s, c) {
      ReferencesOf(s, c);
      hide Inv, Do, Step, Referrers;
      var o := s.services[c];
      var s1 := Step(s, t, Kill(c));
      KillStep(s, t, c);
      Unmoved(s, t);
      if Referrers(s.threads, c) > 0 {
        ReleaseStep(s1, t, c, Stop);
        StillIdle(Step(s1, t, Action.Release), t);
      } else {
        ReleaseStep(s1, t, c, Stop);
        MarkStep(Step(s1, t, Action.Release), t, c, Stop);
      }
    }
  }

  lemma KillStep(s: State, t: Tid, c: Id)
    requires IsIdle(s, t) && Listed(s, c)
    ensures Step(s, t, Kill(c)) ==
      State(s.services[c := s.services[c].(inTable := false)], s.global, s.threads[t := Releasing(c, Stop)])
  {
  }

  lemma ReleaseStep(s: State, t: Tid, c: Id, after: After)
    requires t in s.threads && s.threads[t] == Releasing(c, after) && Known(s, c)
    ensures
      var o := s.services[c];
      Step(s, t, Action.Release) ==
        State(s.services[c := o.(ref := o.ref - 1)], s.global,
          s.threads[t := if o.ref == 1 then Deleting(c, after) else AfterPc(after)])
  {
  }

  lemma MarkStep(s: State, t: Tid, c: Id, after: After)
    requires t in s.threads && s.threads[t] == Deleting(c, after) && Known(s, c)
    ensures
      var o := s.services[c];
      Step(s, t, Mark) ==
        State(s.services[c := o.(release := true, deletions := o.deletions + 1)],
          if o.inGlobal then s.global else s.global + [c], s.threads[t := AfterPc(after)])
  {
  }

  lemma StillIdle(s: State, t: Tid)
    requires IsIdle(s, t)
    ensures Step(s, t, Mark) == s
  {
  }

  // The worker: mtask_context_message_dispatch.

  function Log(messages: seq<Message>, fate: Fate): (log: seq<(Message, Fate)>) {
    seq(|messages|, i requires 0 <= i < |messages| => (messages[i], fate))
  }

  function Times(n: nat, a: Action): seq<Action> { seq(n, _ => a) }

  lemma LogMore(before: seq<(Message, Fate)>, messages: seq<Message>, k: nat, fate: Fate)
    requires 0 < k <= |messages|
    ensures before + [(messages[0], fate)] + Log(messages[1..][..k - 1], fate) == before + Log(messages[..k], fate)
  {
    var first, rest, all := [(messages[0], fate)], Log(messages[1..][..k - 1], fate), Log(messages[..k], fate);
    assert first + rest == all;
  }

  /** A worker that goes on pops the messages of its queue in order. */
  lemma {:induction false} PopMany(s: State, t: Tid, q: Id, k: nat)
    requires t in s.threads && s.threads[t] == Working(q) && Known(s, q) && k <= |s.services[q].msgs|
    ensures
      var s' := Do(s, t, Times(k, PopMessage(true)));
      var o := s.services[q];
      && s'.services == s.services[q := o.(msgs := o.msgs[k..], popped := o.popped + Log(o.msgs[..k], Dispatched))]
      && s'.global == s.global && s'.threads == s.threads
    decreases k
  {
    var o := s.services[q];
    if k == 0 {
      DoNone(s, t);
      assert o.msgs[0..] == o.msgs && o.popped + Log(o.msgs[..0], Dispatched) == o.popped;
      assert Times(0, PopMessage(true)) == [];
    } else {
      var s1 := Step(s, t, PopMessage(true));
      assert s1.threads == s.threads;
      assert Times(k, PopMessage(true)) == [PopMessage(true)] + Times(k - 1, PopMessage(true));
      DoOne(s, t, PopMessage(true), Times(k - 1, PopMessage(true)));
      PopMany(s1, t, q, k - 1);
      LogMore(o.popped, o.msgs, k, Dispatched);
      assert o.msgs[1..][k - 1..] == o.msgs[k..];
    }
  }

  lemma {:induction false} DropMany(s: State, t: Tid, q: Id)
    requires t in s.threads && s.threads[t] == Dropping(q) && Known(s, q)
    ensures
      var s' := Do(s, t, Times(|s.services[q].msgs|, DropMessage));
      var o := s.services[q];
      && s'.services == s.services[q := o.(msgs := [], popped := o.popped + Log(o.msgs, Dropped))]
      && s'.global == s.global && s'.threads == s.threads
    decreases |s.services[q].msgs|
  {
    var o := s.services[q];
    var k := |o.msgs|;
    if k == 0 {
      DoNone(s, t);
      assert o.popped + Log(o.msgs, Dropped) == o.popped;
      assert Times(0, DropMessage) == [];
    } else {
      var s1 := Step(s, t, DropMessage);
      assert s1.threads == s.threads;
      assert Times(k, DropMessage) == [DropMessage] + Times(k - 1, DropMessage);
      DoOne(s, t, DropMessage, Times(k - 1, DropMessage));
      DropMany(s1, t, q);
      LogMore(o.popped, o.msgs, k, Dropped);
      assert o.msgs[..k] == o.msgs && o.msgs[1..][..k - 1] == o.msgs[1..];
    }
  }

  lemma Do2(s: State, t: Tid, a: Action, b: Action)
    ensures Do(s, t, [a, b]) == Step(Step(s, t, a), t, b)
  {
    hide Step, Do;
    DoOne(s, t, a, [b]);
    assert [a] + [b] == [a, b];
    DoOne(Step(s, t, a), t, b, []);
    assert [b] + [] == [b];
    DoNone(Step(Step(s, t, a), t, b), t);
  }

  lemma HeldKnown(s: State, t: Tid)
    requires Inv(s) && t in s.threads && s.threads[t].Held?
    ensures Known(s, s.threads[t].q)
  {
    PcKnown(s, t);
  }

  /** The queue a worker takes is the one that was linked first. */
  lemma TakeCall(s: State, t: Tid)
    requires IsIdle(s, t)
    ensures
      var s' := Step(s, t, TakeQueue);
      if s.global == [] then s' == s
      else s' == State(s.services, s.global[1..], s.threads[t := Held(s.global[0])])
  {
  }

  lemma PopLast(s: State, t: Tid, q: Id)
    requires t in s.threads && s.threads[t] == Working(q) && Known(s, q) && s.services[q].msgs != []
    ensures
      var o := s.services[q];
      Step(s, t, PopMessage(false)) ==
        State(s.services[q := o.(msgs := o.msgs[1..], popped := o.popped + [(o.msgs[0], Dispatched)])], s.global,
          s.threads[t := Finishing(q)])
  {
  }

  /** From the end of the loop: the queue goes to the end of the list and the worker gets the next
      one, or keeps it if no other waits. */
  lemma Requeue(s: State, t: Tid, q: Id)
    requires t in s.threads && s.threads[t] == Finishing(q) && Known(s, q) && s.services[q].ref > 1
    ensures
      Do(s, t, [NextQueue, PushBack, Action.Release]) ==
        State(s.services[q := s.services[q].(ref := s.services[q].ref - 1)],
          if s.global == [] then [] else s.global[1..] + [q],
          s.threads[t := Held(if s.global == [] then q else s.global[0])])
  {
    Do3(s, t, NextQueue, PushBack, Action.Release);
    hide Do;
    var s1 := Step(s, t, NextQueue);
    var s2 := Step(s1, t, PushBack);
    if s.global == [] {
      assert s1.threads == s.threads[t := Releasing(q, KeepQueue(q))] && s2 == s1;
    } else {
      assert s1.threads == s.threads[t := Swapping(q, s.global[0])];
      assert s2.threads == s.threads[t := Releasing(q, KeepQueue(s.global[0]))];
    }
    var s3 := Step(s2, t, Action.Release);
    assert s3.threads == s.threads[t := Held(if s.global == [] then q else s.global[0])];
  }

  function Batch(k: nat): seq<Action>
    requires k > 0
  {
    ([Grab] + (Times(k - 1, PopMessage(true)) + [PopMessage(false)])) + [NextQueue, PushBack, Action.Release]
  }

  lemma Pops(s: State, t: Tid, q: Id, k: nat)
    requires t in s.threads && s.threads[t] == Working(q) && Known(s, q) && 0 < k <= |s.services[q].msgs|
    ensures
      var o := s.services[q];
      Do(s, t, Times(k - 1, PopMessage(true)) + [PopMessage(false)]) ==
        State(s.services[q := o.(msgs := o.msgs[k..], popped := o.popped + Log(o.msgs[..k], Dispatched))], s.global,
          s.threads[t := Finishing(q)])
  {
    hide Step, Do;
    var o := s.services[q];
    DoConcat(s, t, Times(k - 1, PopMessage(true)), [PopMessage(false)]);
    PopMany(s, t, q, k - 1);
    var s1 := Do(s, t, Times(k - 1, PopMessage(true)));
    PopLast(s1, t, q);
    DoOne(s1, t, PopMessage(false), []);
    assert [PopMessage(false)] + [] == [PopMessage(false)];
    DoNone(Step(s1, t, PopMessage(false)), t);
    assert Log(o.msgs[..k - 1], Dispatched) + [(o.msgs[k - 1], Dispatched)] == Log(o.msgs[..k], Dispatched);
    assert o.popped + Log(o.msgs[..k], Dispatched)
        == o.popped + Log(o.msgs[..k - 1], Dispatched) + [(o.msgs[k - 1], Dispatched)];
  }

  lemma GrabStep(s: State, t: Tid, q: Id)
    requires t in s.threads && s.threads[t] == Held(q) && Known(s, q)
    ensures
      var o := s.services[q];
      Step(s, t, Grab) ==
        if o.inTable then State(s.services[q := o.(ref := o.ref + 1)], s.global, s.threads[t := Working(q)])
        else State(s.services, s.global, s.threads[t := Returning(q)])
  {
  }

  /** A worker with a queue of a live service dispatches the first `k` of its messages in order, and
      then the queues take turns. */
  lemma ServeCall(s: State, t: Tid, k: nat)
    requires Inv(s) && t in s.threads && s.threads[t].Held? && k > 0
    ensures
      var q := s.threads[t].q;
      Listed(s, q) && k <= |s.services[q].msgs| ==>
        var o := s.services[q];
        Do(s, t, Batch(k)) ==
          State(s.services[q := o.(msgs := o.msgs[k..], popped := o.popped + Log(o.msgs[..k], Dispatched))],
            if s.global == [] then [] else s.global[1..] + [q],
            s.threads[t := Held(if s.global == [] then q else s.global[0])])
  {
    var q := s.threads[t].q;
    if Listed(s, q) && k <= |s.services[q].msgs| {
      ReferencesOf(s, q);
      hide Inv, Step, Do;
      GrabStep(s, t, q);
      var s1 := Step(s, t, Grab);
      var pops := Times(k - 1, PopMessage(true)) + [PopMessage(false)];
      DoConcat(s, t, [Grab] + pops, [NextQueue, PushBack, Action.Release]);
      DoOne(s, t, Grab, pops);
      Pops(s1, t, q, k);
      Requeue(Do(s1, t, pops), t, q);
    }
  }

  /** A worker that finds no message leaves the queue out of the list. */
  lemma ServeEmptyCall(s: State, t: Tid, more: bool)
    requires Inv(s) && t in s.threads && s.threads[t].Held?
    ensures
      var q := s.threads[t].q;
      Listed(s, q) && s.services[q].msgs == [] ==>
        Do(s, t, [Grab, PopMessage(more), Action.Release]) ==
          State(s.services[q := s.services[q].(inGlobal := false)], s.global, s.threads[t := Idle])
  {
    var q := s.threads[t].q;
    if Listed(s, q) && s.services[q].msgs == [] {
      ReferencesOf(s, q);
      hide Inv, Do;
      Do3(s, t, Grab, PopMessage(more), Action.Release);
      var s1 := Step(s, t, Grab);
      var s2 := Step(s1, t, PopMessage(more));
      assert s1.threads == s.threads[t := Working(q)];
      assert s2.threads == s.threads[t := Releasing(q, Stop)];
    }
  }

  /** mtask_mq_release: the queue of a service out of the table goes back to the list while its context is
      not deleted; then its messages are dropped in order and it is freed. */
  lemma ServeGone(s: State, t: Tid)
    requires Inv(s) && t in s.threads && s.threads[t].Held?
    ensures
      var q := s.threads[t].q;
      && Known(s, q)
      && var o := s.services[q];
      && (!o.inTable && !o.release ==>
           Do(s, t, [Grab, MqRelease]) == State(s.services, s.global + [q], s.threads[t := Idle]))
      && (!o.inTable && o.release ==>
           Do(s, t, [Grab, MqRelease] + Times(|o.msgs|, DropMessage) + [DropMessage, Free]) ==
             State(s.services[q := o.(msgs := [], popped := o.popped + Log(o.msgs, Dropped), inGlobal := false, frees := o.frees + 1)],
               s.global, s.threads[t := Idle]))
  {
    HeldKnown(s, t);
    var q := s.threads[t].q;
    var o := s.services[q];
    hide Inv, Do;
    Do2(s, t, Grab, MqRelease);
    if !o.inTable {
      GrabStep(s, t, q);
      var s1 := Step(s, t, Grab);
      var s2 := Step(s1, t, MqRelease);
      if o.release {
        assert s2.threads == s.threads[t := Dropping(q)] && s2.services == s.services && s2.global == s.global;
        DoConcat(s, t, [Grab, MqRelease] + Times(|o.msgs|, DropMessage), [DropMessage, Free]);
        DoConcat(s, t, [Grab, MqRelease], Times(|o.msgs|, DropMessage));
        DropMany(s2, t, q);
        var s3 := Do(s2, t, Times(|o.msgs|, DropMessage));
        Do2(s3, t, DropMessage, Free);
        FreeLast(s3, t, q);
      } else {
        assert s2.threads == s.threads[t := Idle];
      }
    }
  }

  lemma FreeLast(s: State, t: Tid, q: Id)
    requires t in s.threads && s.threads[t] == Dropping(q) && Known(s, q) && s.services[q].msgs == []
    ensures
      var o := s.services[q];
      Step(Step(s, t, DropMessage), t, Free) ==
        State(s.services[q := o.(inGlobal := false, frees := o.frees + 1)], s.global, s.threads[t := Idle])
  {
    var s1 := Step(s, t, DropMessage);
    assert s1.threads == s.threads[t := Freeing(q)];
  }
}
