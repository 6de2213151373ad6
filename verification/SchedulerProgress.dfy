/** The scheduler cannot get stuck: from every state it reaches, its threads can finish what
    they are doing and empty all queues. */
module SchedulerProgress {
  import opened Scheduler

  /** All messages in all queues. */
  function Total(services: seq<Service>): nat {
    if services == [] then 0 else Total(services[..|services| - 1]) + |services[|services| - 1].msgs|
  }

  lemma {:induction false} TotalUpdate(services: seq<Service>, q: nat, o: Service)
    requires q < |services|
    ensures Total(services[q := o]) == Total(services) - |services[q].msgs| + |o.msgs|
  {
    var n := |services| - 1;
    var services' := services[q := o];
    if q == n {
      assert services'[..n] == services[..n];
    } else {
      assert services'[..n] == services[..n][q := o];
      TotalUpdate(services[..n], q, o);
    }
  }

  /** What a thread does next on its way to be idle. */
  function NextAction(pc: Pc): Action
    requires pc != Idle
  {
    match pc
    case Held(_) => Grab
    case Working(_) => PopMessage(false)
    case Finishing(_) => NextQueue
    case Swapping(_, _) => PushBack
    case Releasing(_, _) => Action.Release
    case Deleting(_, _) => Mark
    case Returning(_) => MqRelease
    case Dropping(_) => DropMessage
    case Freeing(_) => Free
    case Sending(_, _) => PushMessage
    case Creating(_) => InitDone(true)
    case Publishing(_) => PublishQueue
    case FailRetiring(_) => FailRetire
  }

  function AfterRank(a: After): nat {
    match a
    case Stop => 0
    case KeepQueue(_) => 4
    case Publish(_) => 1
    case Retire(_) => 6
    case GiveBack(_) => 3
  }

  /** How many steps a thread is from being idle, unless it handles a message on the way. */
  function Rank(pc: Pc): nat {
    match pc
    case Idle => 0
    case Freeing(_) => 1
    case Publishing(_) => 1
    case Dropping(_) => 2
    case Returning(_) => 3
    case Working(_) => 3
    case Sending(_, _) => 3
    case Held(_) => 4
    case Creating(_) => 4
    case FailRetiring(_) => 6
    case Swapping(_, _) => 7
    case Finishing(_) => 8
    case Releasing(_, a) => AfterRank(a) + 2
    case Deleting(_, a) => AfterRank(a) + 1
  }

  /** The messages that are queued, and the one a thread is about to push. */
  function Load(s: State, t: Tid): nat
    requires t in s.threads
  {
    Total(s.services) + Due(s.threads[t])
  }

  ghost predicate Closer(s: State, s': State, t: Tid) {
    && t in s.threads && s'.threads.Keys == s.threads.Keys
    && (forall u :: u in s.threads && u != t ==> s'.threads[u] == s.threads[u])
    && (Load(s', t) < Load(s, t) || (Load(s', t) == Load(s, t) && Rank(s'.threads[t]) < Rank(s.threads[t])))
  }

  lemma PcKnown(s: State, t: Tid)
    requires Inv(s) && t in s.threads
    ensures
      var pc := s.threads[t];
      match pc
      case Idle => true
      case Releasing(c, _) => Known(s, c)
      case Deleting(c, _) => Known(s, c)
      case Sending(c, _) => Known(s, c)
      case _ => Known(s, pc.q)
  {
    ThreadOk(s, t);
    var pc := s.threads[t];
    if !pc.Idle? && !pc.Releasing? && !pc.Deleting? && !pc.Sending? { assert pc.q in Queues(pc); }
    if pc.Releasing? || pc.Sending? { assert Refers(pc, pc.c); }
    if pc.Deleting? { assert Deletes(pc, pc.c); }
  }

  /** The service a thread is busy with. */
  function Target(pc: Pc): Id
    requires pc != Idle
  {
    if pc.Releasing? || pc.Deleting? || pc.Sending? then pc.c else pc.q
  }

  function Due(pc: Pc): nat { if pc.Sending? then 1 else 0 }

  /** The next action changes one service and one thread: it handles a message or gets on. */
  ghost predicate GetsOn(s: State, s': State, t: Tid)
    requires t in s.threads && s.threads[t] != Idle && Known(s, Target(s.threads[t]))
  {
    var c := Target(s.threads[t]);
    && t in s'.threads && s'.threads == s.threads[t := s'.threads[t]]
    && |s'.services| == |s.services| && s'.services == s.services[c := s'.services[c]]
    && var before, after := |s.services[c].msgs| + Due(s.threads[t]), |s'.services[c].msgs| + Due(s'.threads[t]);
       after < before || (after == before && Rank(s'.threads[t]) < Rank(s.threads[t]))
  }

  lemma GivesUp(s: State, t: Tid)
    requires t in s.threads && (s.threads[t].Releasing? || s.threads[t].Deleting?) && Known(s, s.threads[t].c)
    ensures GetsOn(s, Step(s, t, NextAction(s.threads[t])), t)
  {
  }

  lemma Works(s: State, t: Tid)
    requires t in s.threads && s.threads[t] != Idle && Known(s, Target(s.threads[t]))
    requires var pc := s.threads[t]; pc.Held? || pc.Working? || pc.Finishing? || pc.Swapping?
    ensures GetsOn(s, Step(s, t, NextAction(s.threads[t])), t)
  {
  }

  lemma Returns(s: State, t: Tid)
    requires t in s.threads && s.threads[t] != Idle && Known(s, Target(s.threads[t]))
    requires var pc := s.threads[t]; pc.Returning? || pc.Dropping? || pc.Freeing? || pc.Sending?
    ensures GetsOn(s, Step(s, t, NextAction(s.threads[t])), t)
  {
  }

  lemma Starts(s: State, t: Tid)
    requires t in s.threads && s.threads[t] != Idle && Known(s, Target(s.threads[t]))
    requires var pc := s.threads[t]; pc.Creating? || pc.Publishing? || pc.FailRetiring?
    ensures GetsOn(s, Step(s, t, NextAction(s.threads[t])), t)
  {
  }

  /** The next action brings a thread closer to being idle. */
  lemma StepForward(s: State, t: Tid)
    requires Inv(s) && t in s.threads && s.threads[t] != Idle
    ensures Closer(s, Step(s, t, NextAction(s.threads[t])), t)
  {
    PcKnown(s, t);
    hide Inv, Total, Step, NextAction;
    var pc := s.threads[t];
    var s' := Step(s, t, NextAction(pc));
    if pc.Releasing? || pc.Deleting? { GivesUp(s, t); }
    else if pc.Held? || pc.Working? || pc.Finishing? || pc.Swapping? { Works(s, t); }
    else if pc.Returning? || pc.Dropping? || pc.Freeing? || pc.Sending? { Returns(s, t); }
    else { Starts(s, t); }
    TotalUpdate(s.services, Target(pc), s'.services[Target(pc)]);
  }

  /** A thread can finish what it is doing. */
  lemma {:induction false} Finish(s: State, t: Tid) returns (more: seq<(Tid, Action)>)
    requires Inv(s) && t in s.threads
    ensures
      var s' := Run(s, more);
      && Inv(s') && s'.threads == s.threads[t := Idle] && Total(s'.services) <= Load(s, t)
    decreases Load(s, t), Rank(s.threads[t])
  {
    hide Inv, Step, Total, NextAction;
    if s.threads[t] == Idle {
      more := [];
      assert s.threads[t := Idle] == s.threads;
    } else {
      var a := NextAction(s.threads[t]);
      StepForward(s, t);
      StepKeeps(s, t, a);
      var s1 := Step(s, t, a);
      var rest := Finish(s1, t);
      more := [(t, a)] + rest;
      assert more[0] == (t, a) && more[1..] == rest;
      assert s1.threads[t := Idle] == s.threads[t := Idle];
    }
  }

  lemma {:induction false} RunConcat(s: State, a: seq<(Tid, Action)>, b: seq<(Tid, Action)>)
    ensures Run(s, a + b) == Run(Run(s, a), b)
    decreases |a|
  {
    hide Step;
    if a == [] {
      assert a + b == b;
    } else {
      assert (a + b)[0] == a[0] && (a + b)[1..] == a[1..] + b;
      RunConcat(Step(s, a[0].0, a[0].1), a[1..], b);
    }
  }

  ghost predicate AllIdle(s: State) { forall t :: t in s.threads ==> s.threads[t] == Idle }

  /** All threads can. */
  lemma {:induction false} FinishAll(s: State, busy: set<Tid>) returns (more: seq<(Tid, Action)>)
    requires Inv(s) && forall t :: t in s.threads && t !in busy ==> s.threads[t] == Idle
    ensures
      var s' := Run(s, more);
      Inv(s') && AllIdle(s') && s'.threads.Keys == s.threads.Keys
    decreases |busy|
  {
    hide Inv, Run;
    if busy * s.threads.Keys == {} {
      more := [];
      forall t | t in s.threads ensures s.threads[t] == Idle { assert t !in busy * s.threads.Keys; }
      RunNone(s);
    } else {
      var t :| t in busy * s.threads.Keys;
      var first := Finish(s, t);
      var s1 := Run(s, first);
      assert s1.threads.Keys == s.threads.Keys;
      var rest := FinishAll(s1, busy - {t});
      more := first + rest;
      RunConcat(s, first, rest);
    }
  }

  lemma RunNone(s: State)
    ensures Run(s, []) == s
  {
  }

  /** What an idle system still has to do. */
  ghost predicate Less(s': State, s: State) {
    || Total(s'.services) < Total(s.services)
    || (Total(s'.services) == Total(s.services) && |s'.global| < |s.global|)
  }

  lemma RunOne(s: State, t: Tid, a: Action, more: seq<(Tid, Action)>)
    ensures Run(s, [(t, a)] + more) == Run(Step(s, t, a), more)
  {
    hide Step;
    assert ([(t, a)] + more)[1..] == more;
  }

  /** A context out of the table that no thread refers to has been marked. */
  lemma MarkedWhenIdle(s: State, q: Id)
    requires Inv(s) && AllIdle(s) && Known(s, q) && !s.services[q].inTable
    ensures s.services[q].release
  {
    hide Holders, Referrers, Deleters, MessageInv, ThreadInv;
    CountsZero(s.threads, q);
    assert ServiceInv(s, q);
  }

  /** A context in the table that only the table refers to. */
  lemma OneReference(s: State, q: Id)
    requires Inv(s) && AllIdle(s) && Known(s, q) && s.services[q].inTable
    ensures s.services[q].ref == 1
  {
    hide Holders, Referrers, Deleters, MessageInv, ThreadInv;
    CountsZero(s.threads, q);
    assert ServiceInv(s, q);
  }

  /** Taking the first queue and looking after its context. */
  lemma TakeAndGrab(s: State, t: Tid)
    requires Inv(s) && AllIdle(s) && t in s.threads && s.global != []
    ensures
      var q := s.global[0];
      var s' := Step(Step(s, t, TakeQueue), t, Grab);
      && Known(s, q) && s'.global == s.global[1..]
      && if s.services[q].inTable then
           && s'.threads == s.threads[t := Working(q)]
           && s'.services == s.services[q := s.services[q].(ref := s.services[q].ref + 1)]
         else s'.threads == s.threads[t := Returning(q)] && s'.services == s.services
  {
    hide ServiceInv, MessageInv, ThreadInv;
    var q := s.global[0];
    assert q in s.global;
    var s1 := Step(s, t, TakeQueue);
    assert s1.threads == s.threads[t := Held(q)] && s1.services == s.services;
    var s' := Step(s1, t, Grab);
    assert s'.threads == s.threads[t := if s.services[q].inTable then Working(q) else Returning(q)];
  }

  /** With nothing to pop, the queue leaves the list and the worker its context. */
  lemma LeaveEmpty(s: State, t: Tid)
    requires t in s.threads && s.threads[t].Working? && Known(s, s.threads[t].q)
    requires var o := s.services[s.threads[t].q]; o.msgs == [] && o.ref > 1
    ensures
      var s' := Step(Step(s, t, PopMessage(false)), t, Action.Release);
      s'.threads == s.threads[t := Idle] && s'.global == s.global && Total(s'.services) == Total(s.services)
  {
    hide Total;
    var q := s.threads[t].q;
    var s1 := Step(s, t, PopMessage(false));
    var s' := Step(s1, t, Action.Release);
    assert s1.threads == s.threads[t := Releasing(q, Stop)];
    TotalUpdate(s.services, q, s1.services[q]);
    TotalUpdate(s1.services, q, s'.services[q]);
    assert s'.threads == s.threads[t := Idle];
  }

  /** A marked and empty queue is freed. */
  lemma FreeEmpty(s: State, t: Tid)
    requires t in s.threads && s.threads[t].Returning? && Known(s, s.threads[t].q)
    requires var o := s.services[s.threads[t].q]; o.msgs == [] && o.release
    ensures
      var s' := Step(Step(Step(s, t, MqRelease), t, DropMessage), t, Free);
      s'.threads == s.threads[t := Idle] && s'.global == s.global && Total(s'.services) == Total(s.services)
  {
    hide Total;
    var q := s.threads[t].q;
    var s1 := Step(s, t, MqRelease);
    var s2 := Step(s1, t, DropMessage);
    var s' := Step(s2, t, Free);
    assert s1.threads == s.threads[t := Dropping(q)] && s1.services == s.services;
    assert s2.threads == s.threads[t := Freeing(q)];
    TotalUpdate(s1.services, q, s2.services[q]);
    TotalUpdate(s2.services, q, s'.services[q]);
    assert s'.threads == s.threads[t := Idle];
  }

  /** The first message of the queue is popped or dropped. */
  lemma HandleOne(s: State, t: Tid)
    requires t in s.threads && (s.threads[t].Working? || s.threads[t].Dropping?)
    requires Known(s, s.threads[t].q) && s.services[s.threads[t].q].msgs != []
    ensures
      var s' := Step(s, t, NextAction(s.threads[t]));
      && t in s'.threads && s'.threads == s.threads[t := s'.threads[t]] && !s'.threads[t].Sending?
      && Total(s'.services) < Total(s.services)
  {
    hide Total;
    var q := s.threads[t].q;
    var s' := Step(s, t, NextAction(s.threads[t]));
    TotalUpdate(s.services, q, s'.services[q]);
  }

  lemma StepsKeep2(s: State, t: Tid, a: Action, b: Action)
    requires Inv(s)
    ensures Inv(Step(Step(s, t, a), t, b))
  {
    hide Inv, Step;
    StepKeeps(s, t, a);
    StepKeeps(Step(s, t, a), t, b);
  }

  ghost predicate OnlyBusy(s: State, t: Tid) { forall u :: u in s.threads && u != t ==> s.threads[u] == Idle }

  /** After `more` everything is idle. */
  ghost predicate Ends(s: State, more: seq<(Tid, Action)>) {
    var s' := Run(s, more);
    Inv(s') && AllIdle(s') && s'.threads.Keys == s.threads.Keys
  }

  /** A worker that finds its queue empty. */
  lemma ServeEmpty(s: State, t: Tid) returns (more: seq<(Tid, Action)>)
    requires Inv(s) && t in s.threads && OnlyBusy(s, t) && s.threads[t].Working? && Known(s, s.threads[t].q)
    requires var o := s.services[s.threads[t].q]; o.msgs == [] && o.ref > 1
    ensures Ends(s, more) && Run(s, more).global == s.global && Total(Run(s, more).services) == Total(s.services)
  {
    hide Inv, Step, Total, Run;
    LeaveEmpty(s, t);
    StepsKeep2(s, t, PopMessage(false), Action.Release);
    var s1 := Step(s, t, PopMessage(false));
    more := [(t, PopMessage(false))] + ([(t, Action.Release)] + []);
    RunOne(s, t, PopMessage(false), [(t, Action.Release)] + []);
    RunOne(s1, t, Action.Release, []);
    RunNone(Step(s1, t, Action.Release));
  }

  /** A worker that holds an empty queue whose context is gone. */
  lemma ServeMarked(s: State, t: Tid) returns (more: seq<(Tid, Action)>)
    requires Inv(s) && t in s.threads && OnlyBusy(s, t) && s.threads[t].Returning? && Known(s, s.threads[t].q)
    requires var o := s.services[s.threads[t].q]; o.msgs == [] && o.release
    ensures Ends(s, more) && Run(s, more).global == s.global && Total(Run(s, more).services) == Total(s.services)
  {
    hide Inv, Step, Total, Run;
    FreeEmpty(s, t);
    StepsKeep2(s, t, MqRelease, DropMessage);
    var s1 := Step(s, t, MqRelease);
    var s2 := Step(s1, t, DropMessage);
    StepKeeps(s2, t, Free);
    more := [(t, MqRelease)] + ([(t, DropMessage)] + ([(t, Free)] + []));
    RunOne(s, t, MqRelease, [(t, DropMessage)] + ([(t, Free)] + []));
    RunOne(s1, t, DropMessage, [(t, Free)] + []);
    RunOne(s2, t, Free, []);
    RunNone(Step(s2, t, Free));
  }

  /** Popping or dropping a message and finishing what is left to do. */
  lemma HandleAndFinish(s: State, t: Tid) returns (more: seq<(Tid, Action)>)
    requires Inv(s) && t in s.threads && OnlyBusy(s, t) && (s.threads[t].Working? || s.threads[t].Dropping?)
    requires Known(s, s.threads[t].q) && s.services[s.threads[t].q].msgs != []
    ensures Ends(s, more) && Total(Run(s, more).services) < Total(s.services)
  {
    hide Inv, Step, Total, Run;
    var a := NextAction(s.threads[t]);
    var s1 := Step(s, t, a);
    StepKeeps(s, t, a);
    HandleOne(s, t);
    var rest := Finish(s1, t);
    more := [(t, a)] + rest;
    RunOne(s, t, a, rest);
  }

  /** A worker that holds a queue with messages whose context is gone. */
  lemma DropAndFinish(s: State, t: Tid) returns (more: seq<(Tid, Action)>)
    requires Inv(s) && t in s.threads && OnlyBusy(s, t) && s.threads[t].Returning? && Known(s, s.threads[t].q)
    requires var o := s.services[s.threads[t].q]; o.msgs != [] && o.release
    ensures Ends(s, more) && Total(Run(s, more).services) < Total(s.services)
  {
    StartDropping(s, t);
    hide Inv, Step, Total, Run;
    StepKeeps(s, t, MqRelease);
    var s1 := Step(s, t, MqRelease);
    var rest := HandleAndFinish(s1, t);
    more := [(t, MqRelease)] + rest;
    RunOne(s, t, MqRelease, rest);
  }

  lemma StartDropping(s: State, t: Tid)
    requires t in s.threads && s.threads[t].Returning? && Known(s, s.threads[t].q) && s.services[s.threads[t].q].release
    ensures
      var s' := Step(s, t, MqRelease);
      s'.threads == s.threads[t := Dropping(s.threads[t].q)] && s'.services == s.services
  {
  }

  /** An idle worker can serve the first queue of the list. */
  lemma ServeOne(s: State, t: Tid) returns (more: seq<(Tid, Action)>)
    requires Inv(s) && AllIdle(s) && t in s.threads && s.global != []
    ensures Ends(s, more) && Less(Run(s, more), s)
  {
    hide Inv, Step, Total, Run;
    var q := s.global[0];
    TakeAndGrab(s, t);
    StepsKeep2(s, t, TakeQueue, Grab);
    var s1 := Step(Step(s, t, TakeQueue), t, Grab);
    var rest;
    if s.services[q].inTable {
      OneReference(s, q);
      SameTotal(s, s1, q);
      if s.services[q].msgs != [] { rest := HandleAndFinish(s1, t); } else { rest := ServeEmpty(s1, t); }
    } else {
      MarkedWhenIdle(s, q);
      if s.services[q].msgs != [] { rest := DropAndFinish(s1, t); } else { rest := ServeMarked(s1, t); }
    }
    more := [(t, TakeQueue)] + ([(t, Grab)] + rest);
    RunOne(s, t, TakeQueue, [(t, Grab)] + rest);
    RunOne(Step(s, t, TakeQueue), t, Grab, rest);
  }

  lemma SameTotal(s: State, s': State, q: Id)
    requires Known(s, q) && |s'.services| == |s.services| && s'.services == s.services[q := s'.services[q]]
    requires s'.services[q].msgs == s.services[q].msgs
    ensures Total(s'.services) == Total(s.services)
  {
    TotalUpdate(s.services, q, s'.services[q]);
  }

  /** An idle system can empty its list. */
  lemma {:induction false} ServeAll(s: State, t: Tid) returns (more: seq<(Tid, Action)>)
    requires Inv(s) && AllIdle(s) && t in s.threads
    ensures var s' := Run(s, more); AllIdle(s') && s'.global == []
    decreases Total(s.services), |s.global|
  {
    hide Inv, Total, Run;
    if s.global == [] {
      more := [];
      RunNone(s);
    } else {
      var first := ServeOne(s, t);
      var rest := ServeAll(Run(s, first), t);
      more := first + rest;
      RunConcat(s, first, rest);
    }
  }

  lemma {:induction false} ThreadsKept(s: State, steps: seq<(Tid, Action)>)
    ensures Run(s, steps).threads.Keys == s.threads.Keys
    decreases |steps|
  {
    if steps != [] {
      StepThreads(s, steps[0].0, steps[0].1);
      hide Step;
      ThreadsKept(Step(s, steps[0].0, steps[0].1), steps[1..]);
    }
  }

  lemma StepThreads(s: State, t: Tid, a: Action)
    ensures Step(s, t, a).threads.Keys == s.threads.Keys
  {
  }

  /** From every state that any run reaches there is a way to go on after which all threads are
      idle and no queue waits; then every message has been taken out, and every retired service has
      been deleted and freed once. */
  lemma CanAlwaysFinish(tids: set<Tid>, steps: seq<(Tid, Action)>) returns (more: seq<(Tid, Action)>)
    requires tids != {}
    ensures
      var s := Run(Start(tids), steps + more);
      && AllIdle(s) && s.global == []
      && forall q: Id :: Known(s, q) ==>
           var o := s.services[q];
           Messages(o.popped) == o.pushed && (!o.inTable ==> o.deletions == 1 && o.frees == 1)
  {
    StartHolds(tids);
    RunKeeps(Start(tids), steps);
    ThreadsKept(Start(tids), steps);
    assert Start(tids).threads.Keys == tids;
    hide Inv, Run, Start;
    var s := Run(Start(tids), steps);
    var t :| t in tids;
    var first := FinishAll(s, tids);
    var rest := ServeAll(Run(s, first), t);
    more := first + rest;
    RunConcat(s, first, rest);
    RunConcat(Start(tids), steps, more);
    ThenDone(tids, steps + more);
  }

  lemma ThenDone(tids: set<Tid>, steps: seq<(Tid, Action)>)
    requires AllIdle(Run(Start(tids), steps)) && Run(Start(tids), steps).global == []
    ensures
      var s := Run(Start(tids), steps);
      forall q: Id :: Known(s, q) ==>
        var o := s.services[q];
        Messages(o.popped) == o.pushed && (!o.inTable ==> o.deletions == 1 && o.frees == 1)
  {
    hide Run, Start;
    var s := Run(Start(tids), steps);
    forall q: Id | Known(s, q)
      ensures
        var o := s.services[q];
        Messages(o.popped) == o.pushed && (!o.inTable ==> o.deletions == 1 && o.frees == 1)
    {
      QuiescentMeansDone(tids, steps, q);
    }
  }

  /** What mtask_mq_push, mtask_mq_mark_release, mtask_mq_release and mtask_globalmq_push expect of
      their callers holds whenever a thread is about to call them: a queue they link is not linked
      yet, and one they mark is not marked yet. These are the preconditions of the methods of
      MessageQueues; that an unlinked queue has no successor is kept by GlobalQueue.Pop. */
  lemma CallersMayLink(tids: set<Tid>, steps: seq<(Tid, Action)>, t: Tid)
    ensures
      var s := Run(Start(tids), steps);
      t in s.threads ==>
        match s.threads[t]
        case Sending(c, _) => Known(s, c) && (!s.services[c].inGlobal ==> c !in s.global)
        case Deleting(c, _) => Known(s, c) && !s.services[c].release && (!s.services[c].inGlobal ==> c !in s.global)
        case Returning(q) => q !in s.global
        case Swapping(q, _) => q !in s.global
        case Publishing(q) => q !in s.global
        case _ => true
  {
    hide Run, Start;
    StartHolds(tids);
    RunKeeps(Start(tids), steps);
    var s := Run(Start(tids), steps);
    if t in s.threads && s.threads[t] != Idle {
      PcKnown(s, t);
      CountsPositive(s.threads, t, Target(s.threads[t]));
      NotLinked(s, t);
    }
  }

  lemma NotLinked(s: State, t: Tid)
    requires Inv(s) && t in s.threads && s.threads[t] != Idle && Known(s, Target(s.threads[t]))
    ensures
      var q := Target(s.threads[t]);
      && (q in Queues(s.threads[t]) ==> q !in s.global)
      && (Deletes(s.threads[t], q) ==> !s.services[q].release)
      && (Refers(s.threads[t], q) || Deletes(s.threads[t], q) ==> !s.services[q].inGlobal ==> q !in s.global)
  {
    var q := Target(s.threads[t]);
    CountsPositive(s.threads, t, q);
    assert ServiceInv(s, q);
    hide Holders, Referrers, Deleters, Queues, Refers, Deletes, MessageInv, ThreadInv;
    assert Links(s, q) == 0 ==> q !in s.global;
  }
}
