/** The actor scheduler as a state machine: worker threads, senders, killers and
    creators of services share one global list of message queues. Each section of
    the C code that runs under a lock, and each atomic update of a reference count,
    is one step; steps of any number of threads interleave freely. */
module Scheduler {

  type Id = nat
  type Tid = nat
  type Message = nat

  datatype Fate = Dispatched | Dropped

  /** A service: its context, with the reference count and the slot in the handle
      table, and its message queue. The last three fields record its history. */
  datatype Service = Service(
    ref: int,
    inTable: bool,
    msgs: seq<Message>,
    inGlobal: bool,
    release: bool,
    deletions: nat,
    frees: nat,
    pushed: seq<Message>,
    popped: seq<(Message, Fate)>)

  /** What a thread does after it gave up a reference. */
  datatype After = Stop | KeepQueue(q: Id) | Publish(q: Id) | Retire(q: Id) | GiveBack(q: Id)

  datatype Pc =
    | Idle
    | Held(q: Id)                     // a worker took the queue off the global list
    | Working(q: Id)                  // grabbed the context, popping messages
    | Finishing(q: Id)                // end of the loop, about to ask for another queue
    | Swapping(q: Id, nq: Id)         // got another queue, about to push this one back
    | Releasing(c: Id, after: After)   // about to give up a reference on a context
    | Deleting(c: Id, after: After)    // gave up the last one, about to mark the queue
    | Returning(q: Id)                // about to call mtask_mq_release
    | Dropping(q: Id)                 // dropping the messages of a marked queue
    | Freeing(q: Id)
    | Sending(c: Id, m: Message)      // grabbed the receiver, about to push
    | Creating(q: Id)                 // running the init function of a new service
    | Publishing(q: Id)               // about to link the new queue
    | FailRetiring(q: Id)             // init failed, about to retire the handle

  datatype State = State(services: seq<Service>, global: seq<Id>, threads: map<Tid, Pc>)

  datatype Action =
    | TakeQueue
    | Grab
    | PopMessage(more: bool)
    | NextQueue
    | PushBack
    | Release
    | Mark
    | MqRelease
    | DropMessage
    | Free
    | StartSend(c: Id, m: Message)
    | PushMessage
    | Create
    | InitDone(ok: bool)
    | PublishQueue
    | FailRetire
    | Kill(c: Id)

  function AfterPc(a: After): Pc {
    match a
    case Stop => Idle
    case KeepQueue(q) => Held(q)
    case Publish(q) => Publishing(q)
    case Retire(q) => FailRetiring(q)
    case GiveBack(q) => Returning(q)
  }

  function NewService(): Service {
    Service(2, true, [], true, false, 0, 0, [], [])
  }

  predicate Known(s: State, q: Id) { q < |s.services| }

  function SetPc(s: State, t: Tid, pc: Pc): State { s.(threads := s.threads[t := pc]) }

  function SetService(s: State, q: Id, o: Service): State
    requires Known(s, q)
  {
    s.(services := s.services[q := o])
  }

  function Link(s: State, q: Id): State { s.(global := s.global + [q]) }

  /** One step of thread `t`. An action that does not fit what the thread is about to
      do leaves the state as it is. */
  function Step(s: State, t: Tid, a: Action): State {
    if t !in s.threads then s
    else
      match (s.threads[t], a)
      case (Idle, TakeQueue) =>
        if s.global == [] then s
        else SetPc(s.(global := s.global[1..]), t, Held(s.global[0]))
      case (Held(q), Grab) =>
        if !Known(s, q) then s
        else
          var o := s.services[q];
          if o.inTable then SetPc(SetService(s, q, o.(ref := o.ref + 1)), t, Working(q))
          else SetPc(s, t, Returning(q))
      case (Working(q), PopMessage(more)) =>
        if !Known(s, q) then s
        else
          var o := s.services[q];
          if o.msgs != [] then
            var o' := o.(msgs := o.msgs[1..], popped := o.popped + [(o.msgs[0], Dispatched)]);
            SetPc(SetService(s, q, o'), t, if more then Working(q) else Finishing(q))
          else
            SetPc(SetService(s, q, o.(inGlobal := false)), t, Releasing(q, Stop))
      case (Finishing(q), NextQueue) =>
        if s.global == [] then SetPc(s, t, Releasing(q, KeepQueue(q)))
        else SetPc(s.(global := s.global[1..]), t, Swapping(q, s.global[0]))
      case (Swapping(q, nq), PushBack) =>
        SetPc(Link(s, q), t, Releasing(q, KeepQueue(nq)))
      case (Releasing(c, after), Release) =>
        if !Known(s, c) then s
        else
          var o := s.services[c];
          var s' := SetService(s, c, o.(ref := o.ref - 1));
          SetPc(s', t, if o.ref - 1 == 0 then Deleting(c, after) else AfterPc(after))
      case (Deleting(c, after), Mark) =>
        if !Known(s, c) then s
        else
          var o := s.services[c];
          var s' := SetService(s, c, o.(release := true, deletions := o.deletions + 1));
          SetPc(if o.inGlobal then s' else Link(s', c), t, AfterPc(after))
      case (Returning(q), MqRelease) =>
        if !Known(s, q) then s
        else if s.services[q].release then SetPc(s, t, Dropping(q))
        else SetPc(Link(s, q), t, Idle)
      case (Dropping(q), DropMessage) =>
        if !Known(s, q) then s
        else
          var o := s.services[q];
          if o.msgs != [] then
            SetService(s, q, o.(msgs := o.msgs[1..], popped := o.popped + [(o.msgs[0], Dropped)]))
          else SetPc(SetService(s, q, o.(inGlobal := false)), t, Freeing(q))
      case (Freeing(q), Free) =>
        if !Known(s, q) then s
        else SetPc(SetService(s, q, s.services[q].(frees := s.services[q].frees + 1)), t, Idle)
      case (Idle, StartSend(c, m)) =>
        if !Known(s, c) || !s.services[c].inTable then s
        else
          var o := s.services[c];
          SetPc(SetService(s, c, o.(ref := o.ref + 1)), t, Sending(c, m))
      case (Sending(c, m), PushMessage) =>
        if !Known(s, c) then s
        else
          var o := s.services[c];
          var o' := o.(msgs := o.msgs + [m], pushed := o.pushed + [m], inGlobal := true);
          var s' := SetService(s, c, o');
          SetPc(if o.inGlobal then s' else Link(s', c), t, Releasing(c, Stop))
      case (Idle, Create) =>
        SetPc(s.(services := s.services + [NewService()]), t, Creating(|s.services|))
      case (Creating(q), InitDone(ok)) =>
        SetPc(s, t, Releasing(q, if ok then Publish(q) else Retire(q)))
      case (Publishing(q), PublishQueue) =>
        SetPc(Link(s, q), t, Idle)
      case (FailRetiring(q), FailRetire) =>
        if !Known(s, q) then s
        else if s.services[q].inTable then
          SetPc(SetService(s, q, s.services[q].(inTable := false)), t, Releasing(q, GiveBack(q)))
        else SetPc(s, t, Returning(q))
      case (Idle, Kill(c)) =>
        if !Known(s, c) || !s.services[c].inTable then s
        else SetPc(SetService(s, c, s.services[c].(inTable := false)), t, Releasing(c, Stop))
      case _ => s
  }

  /** A run: any interleaving of actions of the threads. */
  function Run(s: State, steps: seq<(Tid, Action)>): State
    decreases |steps|
  {
    if steps == [] then s else Run(Step(s, steps[0].0, steps[0].1), steps[1..])
  }

  /** No service yet, and any finite set of threads. */
  function Start(tids: set<Tid>): State { State([], [], map t | t in tids :: Idle) }

  // Who has what.

  function AfterQueue(a: After): set<Id> { if a.Stop? then {} else {a.q} }

  /** The queues a thread holds. */
  function Queues(pc: Pc): set<Id> {
    match pc
    case Idle => {}
    case Sending(_, _) => {}
    case Swapping(q, nq) => {q, nq}
    case Releasing(_, a) => AfterQueue(a)
    case Deleting(_, a) => AfterQueue(a)
    case _ => {pc.q}
  }

  /** True when the thread holds a counted reference on the context of `c`. */
  predicate Refers(pc: Pc, c: Id) {
    match pc
    case Working(q) => q == c
    case Finishing(q) => q == c
    case Swapping(q, _) => q == c
    case Creating(q) => q == c
    case Releasing(d, _) => d == c
    case Sending(d, _) => d == c
    case _ => false
  }

  predicate Deletes(pc: Pc, c: Id) { pc.Deleting? && pc.c == c }

  ghost function HolderSet(threads: map<Tid, Pc>, q: Id): set<Tid> {
    set t | t in threads && q in Queues(threads[t])
  }

  ghost function ReferrerSet(threads: map<Tid, Pc>, c: Id): set<Tid> {
    set t | t in threads && Refers(threads[t], c)
  }

  ghost function DeleterSet(threads: map<Tid, Pc>, c: Id): set<Tid> {
    set t | t in threads && Deletes(threads[t], c)
  }

  ghost function Holders(threads: map<Tid, Pc>, q: Id): nat { |HolderSet(threads, q)| }

  ghost function Referrers(threads: map<Tid, Pc>, c: Id): nat { |ReferrerSet(threads, c)| }

  ghost function Deleters(threads: map<Tid, Pc>, c: Id): nat { |DeleterSet(threads, c)| }

  function Links(s: State, q: Id): nat { multiset(s.global)[q] }

  /** In how many places a queue is: links in the global list and holding threads. */
  ghost function Places(s: State, q: Id): nat { Links(s, q) + Holders(s.threads, q) }

  function Messages(log: seq<(Message, Fate)>): (r: seq<Message>)
    ensures |r| == |log| && forall i :: 0 <= i < |log| ==> r[i] == log[i].0
  {
    seq(|log|, i requires 0 <= i < |log| => log[i].0)
  }

  function N(b: bool): nat { if b then 1 else 0 }

  /** The ownership protocol of one service: the reference count is exact, the context is
      deleted when it reaches zero, and the queue is in one place until it is freed. */
  ghost predicate ServiceInv(s: State, q: Id)
    requires Known(s, q)
  {
    var o := s.services[q];
    && o.ref == N(o.inTable) + Referrers(s.threads, q)
    && (o.ref > 0 ==> Deleters(s.threads, q) == 0 && !o.release)
    && (o.ref == 0 ==> Deleters(s.threads, q) + N(o.release) == 1)
    && o.deletions == N(o.release)
    && o.frees <= o.deletions
    && Places(s, q) == (if o.frees > 0 then 0 else if o.release then 1 else N(o.inGlobal))
  }

  /** The messages of one service. */
  ghost predicate MessageInv(o: Service) {
    && o.pushed == Messages(o.popped) + o.msgs
    && (o.msgs != [] && !o.release ==> o.inGlobal)
    && (o.frees > 0 ==> o.msgs == [])
    && (!o.release ==> forall i :: 0 <= i < |o.popped| ==> o.popped[i].1 == Dispatched)
    && (forall i, j :: 0 <= i < j < |o.popped| && o.popped[i].1 == Dropped ==> o.popped[j].1 == Dropped)
  }

  ghost predicate ThreadInv(s: State, pc: Pc) {
    && (forall q :: q in Queues(pc) ==> Known(s, q))
    && (forall c :: Refers(pc, c) || Deletes(pc, c) ==> Known(s, c))
    && (pc.Swapping? ==> pc.q != pc.nq)
    && (pc.Dropping? || pc.Freeing? ==> Known(s, pc.q) && s.services[pc.q].release)
    && (pc.Freeing? ==> s.services[pc.q].msgs == [])
  }

  ghost predicate Inv(s: State) {
    && (forall q :: q in s.global ==> Known(s, q))
    && (forall t :: t in s.threads ==> ThreadInv(s, s.threads[t]))
    && (forall q :: 0 <= q < |s.services| ==> ServiceInv(s, q))
    && (forall q :: 0 <= q < |s.services| ==> MessageInv(s.services[q]))
  }

  // Counting.

  lemma SetCount(a: set<Tid>, b: set<Tid>, t: Tid)
    requires a - {t} == b - {t}
    ensures |b| == |a| - N(t in a) + N(t in b)
  {
    if t in a { assert a == (a - {t}) + {t}; }
    else { assert a == a - {t}; }
    if t in b { assert b == (b - {t}) + {t}; }
    else { assert b == b - {t}; }
  }

  /** When one thread moves, only its own contribution to the counts of `q` changes. */
  lemma CountsMove(threads: map<Tid, Pc>, t: Tid, pc: Pc, q: Id)
    requires t in threads
    ensures Holders(threads[t := pc], q) == Holders(threads, q) - N(q in Queues(threads[t])) + N(q in Queues(pc))
    ensures Referrers(threads[t := pc], q) == Referrers(threads, q) - N(Refers(threads[t], q)) + N(Refers(pc, q))
    ensures Deleters(threads[t := pc], q) == Deleters(threads, q) - N(Deletes(threads[t], q)) + N(Deletes(pc, q))
  {
    hide Queues, Refers, Deletes;
    var threads' := threads[t := pc];
    SetCount(HolderSet(threads, q), HolderSet(threads', q), t);
    SetCount(ReferrerSet(threads, q), ReferrerSet(threads', q), t);
    SetCount(DeleterSet(threads, q), DeleterSet(threads', q), t);
  }

  lemma CountsPositive(threads: map<Tid, Pc>, t: Tid, q: Id)
    requires t in threads
    ensures q in Queues(threads[t]) ==> Holders(threads, q) >= 1
    ensures Refers(threads[t], q) ==> Referrers(threads, q) >= 1
    ensures Deletes(threads[t], q) ==> Deleters(threads, q) >= 1
  {
    CountsMove(threads, t, Idle, q);
  }

  lemma CountsZero(threads: map<Tid, Pc>, q: Id)
    requires forall t :: t in threads ==> q !in Queues(threads[t]) && !Refers(threads[t], q) && !Deletes(threads[t], q)
    ensures Holders(threads, q) == 0 && Referrers(threads, q) == 0 && Deleters(threads, q) == 0
  {
    assert HolderSet(threads, q) == {};
    assert ReferrerSet(threads, q) == {};
    assert DeleterSet(threads, q) == {};
  }

  lemma LinksPush(g: seq<Id>, x: Id, q: Id)
    ensures multiset(g + [x])[q] == multiset(g)[q] + N(x == q)
  {
  }

  lemma LinksPop(g: seq<Id>, q: Id)
    requires g != []
    ensures multiset(g[1..])[q] == multiset(g)[q] - N(g[0] == q)
  {
    assert g == [g[0]] + g[1..];
  }

  // One step.

  /** What a step of `t` may do to the service `q`, as far as the invariants of the other
      threads care. */
  ghost predicate Grows(o: Service, o': Service) {
    && (o.release ==> o'.release)
    && (o.release && o.msgs == [] ==> o'.msgs == [])
  }

  ghost predicate Moves(s: State, s': State, t: Tid) {
    t in s.threads && t in s'.threads && s'.threads == s.threads[t := s'.threads[t]]
  }

  lemma OtherThreads(s: State, s': State, t: Tid)
    requires Inv(s) && Moves(s, s', t)
    requires |s.services| <= |s'.services|
    requires forall q :: 0 <= q < |s.services| ==> Grows(s.services[q], s'.services[q])
    ensures forall u :: u in s'.threads && u != t ==> ThreadInv(s', s'.threads[u])
  {
    hide Holders, Referrers, Deleters, ServiceInv, MessageInv, Refers, Deletes, Queues;
    forall u | u in s'.threads && u != t ensures ThreadInv(s', s'.threads[u]) {
      var pc := s.threads[u];
      assert ThreadInv(s, pc);
    }
  }

  /** Everything the invariant needs after a step of `t`, once each service and the
      stepping thread itself have been looked at. */
  lemma Assemble(s: State, s': State, t: Tid)
    requires Inv(s) && Moves(s, s', t)
    requires |s.services| <= |s'.services|
    requires forall q :: 0 <= q < |s.services| ==> Grows(s.services[q], s'.services[q])
    requires forall q :: 0 <= q < |s'.services| ==> ServiceInv(s', q)
    requires forall q :: 0 <= q < |s'.services| ==> MessageInv(s'.services[q])
    requires forall q :: q in s'.global ==> Known(s', q)
    requires ThreadInv(s', s'.threads[t])
    ensures Inv(s')
  {
    hide Holders, Referrers, Deleters, ServiceInv, MessageInv, ThreadInv, Grows;
    OtherThreads(s, s', t);
  }

  lemma Counts(s: State, s': State, t: Tid, q: Id)
    requires Inv(s) && Moves(s, s', t)
    ensures Holders(s'.threads, q) == Holders(s.threads, q) - N(q in Queues(s.threads[t])) + N(q in Queues(s'.threads[t]))
    ensures Referrers(s'.threads, q) == Referrers(s.threads, q) - N(Refers(s.threads[t], q)) + N(Refers(s'.threads[t], q))
    ensures Deleters(s'.threads, q) == Deleters(s.threads, q) - N(Deletes(s.threads[t], q)) + N(Deletes(s'.threads[t], q))
    ensures q in Queues(s.threads[t]) ==> Holders(s.threads, q) >= 1
    ensures Refers(s.threads[t], q) ==> Referrers(s.threads, q) >= 1
    ensures Deletes(s.threads[t], q) ==> Deleters(s.threads, q) >= 1
    ensures ThreadInv(s, s.threads[t])
    ensures Known(s, q) ==> ServiceInv(s, q) && MessageInv(s.services[q])
  {
    hide Holders, Referrers, Deleters, ServiceInv, MessageInv, ThreadInv, Queues, Refers, Deletes;
    CountsMove(s.threads, t, s'.threads[t], q);
    CountsPositive(s.threads, t, q);
  }

  lemma ThreadOk(s: State, t: Tid)
    requires Inv(s) && t in s.threads
    ensures ThreadInv(s, s.threads[t])
  {
  }

  /** Giving up a reference and marking leave the queues of the thread alone. */
  lemma ReleasingFacts(pc: Pc, q: Id)
    requires pc.Releasing? || pc.Deleting?
    ensures var pc' := AfterPc(pc.after); Queues(pc') == Queues(pc) && !Refers(pc', q) && !Deletes(pc', q)
    ensures var pc' := Deleting(pc.c, pc.after); Queues(pc') == Queues(pc) && !Refers(pc', q) && (Deletes(pc', q) <==> q == pc.c)
    ensures Refers(pc, q) <==> pc.Releasing? && q == pc.c
    ensures Deletes(pc, q) <==> pc.Deleting? && q == pc.c
  {
  }

  /** A context that a thread refers to is still there. */
  lemma NotReleased(s: State, t: Tid, c: Id)
    requires Inv(s) && t in s.threads && Refers(s.threads[t], c) && Known(s, c)
    ensures !s.services[c].release
  {
    hide Holders, Referrers, Deleters, Queues, Refers, MessageInv, ThreadInv;
    CountsPositive(s.threads, t, c);
    assert ServiceInv(s, c);
  }

  lemma Popped(g: seq<Id>)
    requires g != []
    ensures g[0] in g && forall q :: q in g[1..] ==> q in g
  {
  }

  lemma TakeQueueKeeps(s: State, t: Tid)
    requires Inv(s) && t in s.threads && s.threads[t] == Idle
    ensures Inv(Step(s, t, TakeQueue))
  {
    hide Holders, Referrers, Deleters, MessageInv;
    var s' := Step(s, t, TakeQueue);
    if s.global != [] {
      Popped(s.global);
      forall q | 0 <= q < |s'.services| ensures ServiceInv(s', q) { Counts(s, s', t, q); LinksPop(s.global, q); }
      Assemble(s, s', t);
    }
  }

  lemma GrabKeeps(s: State, t: Tid)
    requires Inv(s) && t in s.threads && s.threads[t].Held?
    ensures Inv(Step(s, t, Grab))
  {
    hide Holders, Referrers, Deleters;
    var s' := Step(s, t, Grab);
    Counts(s, s', t, s.threads[t].q);
    forall q | 0 <= q < |s'.services| ensures ServiceInv(s', q) { Counts(s, s', t, q); }
    forall q | 0 <= q < |s'.services| ensures MessageInv(s'.services[q]) { Counts(s, s', t, q); }
    Assemble(s, s', t);
  }

  lemma PopMessageStep(s: State, t: Tid, more: bool)
    requires t in s.threads && s.threads[t].Working? && Known(s, s.threads[t].q)
    ensures
      var q := s.threads[t].q;
      var o := s.services[q];
      var s' := Step(s, t, PopMessage(more));
      && s'.global == s.global
      && if o.msgs == [] then
           && s'.threads == s.threads[t := Releasing(q, Stop)]
           && s'.services == s.services[q := o.(inGlobal := false)]
         else
           && s'.threads == s.threads[t := if more then Working(q) else Finishing(q)]
           && s'.services == s.services[q :=
                o.(msgs := o.msgs[1..], popped := o.popped + [(o.msgs[0], Dispatched)])]
  {
  }

  lemma PopMessageService(s: State, t: Tid, more: bool, q: Id)
    requires Inv(s) && t in s.threads && s.threads[t].Working? && Known(s, q)
    ensures ServiceInv(Step(s, t, PopMessage(more)), q)
  {
    ThreadOk(s, t);
    var c := s.threads[t].q;
    assert Known(s, c);
    hide Inv, MessageInv, ThreadInv, Holders, Referrers, Deleters, Step;
    PopMessageStep(s, t, more);
    var s' := Step(s, t, PopMessage(more));
    Counts(s, s', t, c);
    Counts(s, s', t, q);
  }

  lemma PopMessageMessages(s: State, t: Tid, more: bool, q: Id)
    requires Inv(s) && t in s.threads && s.threads[t].Working? && Known(s, q)
    ensures MessageInv(Step(s, t, PopMessage(more)).services[q])
  {
    ThreadOk(s, t);
    assert Known(s, s.threads[t].q) && MessageInv(s.services[q]) && ServiceInv(s, q);
    NotReleased(s, t, s.threads[t].q);
    hide Inv, ServiceInv, Queues, Refers, Deletes, Step;
    PopMessageStep(s, t, more);
  }

  lemma PopMessageKeeps(s: State, t: Tid, more: bool)
    requires Inv(s) && t in s.threads && s.threads[t].Working?
    ensures Inv(Step(s, t, PopMessage(more)))
  {
    ThreadOk(s, t);
    hide Holders, Referrers, Deleters, Step, ServiceInv, MessageInv;
    PopMessageStep(s, t, more);
    var s' := Step(s, t, PopMessage(more));
    Counts(s, s', t, s.threads[t].q);
    forall q | 0 <= q < |s'.services| ensures ServiceInv(s', q) && MessageInv(s'.services[q]) {
      PopMessageService(s, t, more, q);
      PopMessageMessages(s, t, more, q);
    }
    Assemble(s, s', t);
  }

  lemma NextQueueService(s: State, t: Tid, q: Id)
    requires Inv(s) && t in s.threads && s.threads[t].Finishing? && Known(s, q)
    ensures ServiceInv(Step(s, t, NextQueue), q)
  {
    ThreadOk(s, t);
    var c := s.threads[t].q;
    assert Known(s, c);
    hide Inv, MessageInv, ThreadInv, Holders, Referrers, Deleters;
    var s' := Step(s, t, NextQueue);
    Counts(s, s', t, c);
    Counts(s, s', t, q);
    if s.global != [] { LinksPop(s.global, q); }
  }

  lemma NextQueueMessages(s: State, t: Tid, q: Id)
    requires Inv(s) && t in s.threads && s.threads[t].Finishing? && Known(s, q)
    ensures MessageInv(Step(s, t, NextQueue).services[q])
  {
    ThreadOk(s, t);
    assert Known(s, s.threads[t].q) && MessageInv(s.services[q]) && ServiceInv(s, q);
    hide Inv, ServiceInv, Queues, Refers, Deletes;
  }

  lemma NextQueueKeeps(s: State, t: Tid)
    requires Inv(s) && t in s.threads && s.threads[t].Finishing?
    ensures Inv(Step(s, t, NextQueue))
  {
    ThreadOk(s, t);
    hide Holders, Referrers, Deleters, ServiceInv, MessageInv;
    var s' := Step(s, t, NextQueue);
    if s.global != [] { Popped(s.global); }
    Counts(s, s', t, s.threads[t].q);
    forall q | 0 <= q < |s'.services| ensures ServiceInv(s', q) && MessageInv(s'.services[q]) {
      NextQueueService(s, t, q);
      NextQueueMessages(s, t, q);
    }
    Assemble(s, s', t);
  }

  lemma PushBackService(s: State, t: Tid, q: Id)
    requires Inv(s) && t in s.threads && s.threads[t].Swapping? && Known(s, q)
    ensures ServiceInv(Step(s, t, PushBack), q)
  {
    ThreadOk(s, t);
    var c := s.threads[t].q;
    assert Known(s, c);
    hide Inv, MessageInv, ThreadInv, Holders, Referrers, Deleters;
    var s' := Step(s, t, PushBack);
    Counts(s, s', t, c);
    Counts(s, s', t, q);
    LinksPush(s.global, c, q);
  }

  lemma PushBackMessages(s: State, t: Tid, q: Id)
    requires Inv(s) && t in s.threads && s.threads[t].Swapping? && Known(s, q)
    ensures MessageInv(Step(s, t, PushBack).services[q])
  {
    ThreadOk(s, t);
    assert Known(s, s.threads[t].q) && MessageInv(s.services[q]) && ServiceInv(s, q);
    hide Inv, ServiceInv, Queues, Refers, Deletes;
  }

  lemma PushBackKeeps(s: State, t: Tid)
    requires Inv(s) && t in s.threads && s.threads[t].Swapping?
    ensures Inv(Step(s, t, PushBack))
  {
    ThreadOk(s, t);
    hide Holders, Referrers, Deleters, ServiceInv, MessageInv;
    var s' := Step(s, t, PushBack);
    Counts(s, s', t, s.threads[t].q);
    forall q | 0 <= q < |s'.services| ensures ServiceInv(s', q) && MessageInv(s'.services[q]) {
      PushBackService(s, t, q);
      PushBackMessages(s, t, q);
    }
    Assemble(s, s', t);
  }

  lemma ReleaseService(s: State, t: Tid, q: Id)
    requires Inv(s) && t in s.threads && s.threads[t].Releasing? && Known(s, q)
    ensures ServiceInv(Step(s, t, Release), q)
  {
    ThreadOk(s, t);
    var c := s.threads[t].c;
    assert Known(s, c);
    ReleasingFacts(s.threads[t], q);
    ReleasingFacts(s.threads[t], c);
    hide Inv, MessageInv, ThreadInv, Queues, Refers, Deletes, AfterPc, Holders, Referrers, Deleters;
    var s' := Step(s, t, Release);
    Counts(s, s', t, c);
    Counts(s, s', t, q);
  }

  lemma ReleaseMessages(s: State, t: Tid, q: Id)
    requires Inv(s) && t in s.threads && s.threads[t].Releasing? && Known(s, q)
    ensures MessageInv(Step(s, t, Release).services[q])
  {
    ThreadOk(s, t);
    assert Known(s, s.threads[t].c) && MessageInv(s.services[q]) && ServiceInv(s, q);
    hide Inv, ServiceInv, Queues, Refers, Deletes;
  }

  lemma ReleaseKeeps(s: State, t: Tid)
    requires Inv(s) && t in s.threads && s.threads[t].Releasing?
    ensures Inv(Step(s, t, Release))
  {
    ThreadOk(s, t);
    hide Holders, Referrers, Deleters, ServiceInv, MessageInv;
    var s' := Step(s, t, Release);
    Counts(s, s', t, s.threads[t].c);
    forall q | 0 <= q < |s'.services| ensures ServiceInv(s', q) && MessageInv(s'.services[q]) {
      ReleaseService(s, t, q);
      ReleaseMessages(s, t, q);
    }
    Assemble(s, s', t);
  }

  lemma MarkStep(s: State, t: Tid)
    requires t in s.threads && s.threads[t].Deleting? && Known(s, s.threads[t].c)
    ensures
      var c := s.threads[t].c;
      var s' := Step(s, t, Mark);
      && s'.threads == s.threads[t := AfterPc(s.threads[t].after)]
      && s'.services == s.services[c := s.services[c].(release := true, deletions := s.services[c].deletions + 1)]
      && s'.global == if s.services[c].inGlobal then s.global else s.global + [c]
  {
  }

  lemma MarkService(s: State, t: Tid, q: Id)
    requires Inv(s) && t in s.threads && s.threads[t].Deleting? && Known(s, q)
    ensures ServiceInv(Step(s, t, Mark), q)
  {
    ThreadOk(s, t);
    var c := s.threads[t].c;
    assert Known(s, c);
    ReleasingFacts(s.threads[t], q);
    ReleasingFacts(s.threads[t], c);
    hide Inv, MessageInv, ThreadInv, Queues, Refers, Deletes, AfterPc, Holders, Referrers, Deleters, Step;
    MarkStep(s, t);
    var s' := Step(s, t, Mark);
    Counts(s, s', t, c);
    Counts(s, s', t, q);
    LinksPush(s.global, c, q);
  }

  lemma MarkMessages(s: State, t: Tid, q: Id)
    requires Inv(s) && t in s.threads && s.threads[t].Deleting? && Known(s, q)
    ensures MessageInv(Step(s, t, Mark).services[q])
  {
    ThreadOk(s, t);
    assert Known(s, s.threads[t].c) && MessageInv(s.services[q]) && ServiceInv(s, q);
    hide Inv, ServiceInv, Queues, Refers, Deletes, Step;
    MarkStep(s, t);
  }

  lemma MarkKeeps(s: State, t: Tid)
    requires Inv(s) && t in s.threads && s.threads[t].Deleting?
    ensures Inv(Step(s, t, Mark))
  {
    ThreadOk(s, t);
    hide Holders, Referrers, Deleters, Step, ServiceInv, MessageInv;
    MarkStep(s, t);
    var s' := Step(s, t, Mark);
    Counts(s, s', t, s.threads[t].c);
    forall q | 0 <= q < |s'.services| ensures ServiceInv(s', q) && MessageInv(s'.services[q]) {
      MarkService(s, t, q);
      MarkMessages(s, t, q);
    }
    Assemble(s, s', t);
  }

  lemma MqReleaseService(s: State, t: Tid, q: Id)
    requires Inv(s) && t in s.threads && s.threads[t].Returning? && Known(s, q)
    ensures ServiceInv(Step(s, t, MqRelease), q)
  {
    ThreadOk(s, t);
    var c := s.threads[t].q;
    assert Known(s, c);
    hide Inv, MessageInv, ThreadInv, Holders, Referrers, Deleters;
    var s' := Step(s, t, MqRelease);
    Counts(s, s', t, c);
    Counts(s, s', t, q);
    LinksPush(s.global, c, q);
  }

  lemma MqReleaseMessages(s: State, t: Tid, q: Id)
    requires Inv(s) && t in s.threads && s.threads[t].Returning? && Known(s, q)
    ensures MessageInv(Step(s, t, MqRelease).services[q])
  {
    ThreadOk(s, t);
    assert Known(s, s.threads[t].q) && MessageInv(s.services[q]) && ServiceInv(s, q);
    hide Inv, ServiceInv, Queues, Refers, Deletes;
  }

  lemma MqReleaseKeeps(s: State, t: Tid)
    requires Inv(s) && t in s.threads && s.threads[t].Returning?
    ensures Inv(Step(s, t, MqRelease))
  {
    ThreadOk(s, t);
    hide Holders, Referrers, Deleters, ServiceInv, MessageInv;
    var s' := Step(s, t, MqRelease);
    Counts(s, s', t, s.threads[t].q);
    forall q | 0 <= q < |s'.services| ensures ServiceInv(s', q) && MessageInv(s'.services[q]) {
      MqReleaseService(s, t, q);
      MqReleaseMessages(s, t, q);
    }
    Assemble(s, s', t);
  }

  lemma DropMessageService(s: State, t: Tid, q: Id)
    requires Inv(s) && t in s.threads && s.threads[t].Dropping? && Known(s, q)
    ensures ServiceInv(Step(s, t, DropMessage), q)
  {
    ThreadOk(s, t);
    var c := s.threads[t].q;
    assert Known(s, c);
    hide Inv, MessageInv, ThreadInv, Holders, Referrers, Deleters;
    var s' := Step(s, t, DropMessage);
    Counts(s, s', t, c);
    Counts(s, s', t, q);
  }

  lemma DropMessageMessages(s: State, t: Tid, q: Id)
    requires Inv(s) && t in s.threads && s.threads[t].Dropping? && Known(s, q)
    ensures MessageInv(Step(s, t, DropMessage).services[q])
  {
    ThreadOk(s, t);
    assert Known(s, s.threads[t].q) && MessageInv(s.services[q]) && ServiceInv(s, q);
    hide Inv, ServiceInv, Queues, Refers, Deletes;
  }

  lemma DropMessageKeeps(s: State, t: Tid)
    requires Inv(s) && t in s.threads && s.threads[t].Dropping?
    ensures Inv(Step(s, t, DropMessage))
  {
    ThreadOk(s, t);
    hide Holders, Referrers, Deleters, ServiceInv, MessageInv;
    var s' := Step(s, t, DropMessage);
    Counts(s, s', t, s.threads[t].q);
    forall q | 0 <= q < |s'.services| ensures ServiceInv(s', q) && MessageInv(s'.services[q]) {
      DropMessageService(s, t, q);
      DropMessageMessages(s, t, q);
    }
    Assemble(s, s', t);
  }

  lemma FreeKeeps(s: State, t: Tid)
    requires Inv(s) && t in s.threads && s.threads[t].Freeing?
    ensures Inv(Step(s, t, Free))
  {
    hide Holders, Referrers, Deleters;
    var s' := Step(s, t, Free);
    Counts(s, s', t, s.threads[t].q);
    forall q | 0 <= q < |s'.services| ensures ServiceInv(s', q) { Counts(s, s', t, q); }
    forall q | 0 <= q < |s'.services| ensures MessageInv(s'.services[q]) { Counts(s, s', t, q); }
    Assemble(s, s', t);
  }

  lemma StartSendKeeps(s: State, t: Tid, c: Id, m: Message)
    requires Inv(s) && t in s.threads && s.threads[t] == Idle
    ensures Inv(Step(s, t, StartSend(c, m)))
  {
    hide Holders, Referrers, Deleters;
    var s' := Step(s, t, StartSend(c, m));
    if Known(s, c) && s.services[c].inTable {
      Counts(s, s', t, c);
      forall q | 0 <= q < |s'.services| ensures ServiceInv(s', q) { Counts(s, s', t, q); }
      forall q | 0 <= q < |s'.services| ensures MessageInv(s'.services[q]) { Counts(s, s', t, q); }
      Assemble(s, s', t);
    }
  }

  lemma PushMessageStep(s: State, t: Tid)
    requires t in s.threads && s.threads[t].Sending? && Known(s, s.threads[t].c)
    ensures
      var c, m := s.threads[t].c, s.threads[t].m;
      var o := s.services[c];
      var s' := Step(s, t, PushMessage);
      && s'.threads == s.threads[t := Releasing(c, Stop)]
      && s'.services == s.services[c := o.(msgs := o.msgs + [m], pushed := o.pushed + [m], inGlobal := true)]
      && s'.global == if o.inGlobal then s.global else s.global + [c]
  {
  }

  lemma PushMessageService(s: State, t: Tid, q: Id)
    requires Inv(s) && t in s.threads && s.threads[t].Sending? && Known(s, q)
    ensures ServiceInv(Step(s, t, PushMessage), q)
  {
    ThreadOk(s, t);
    var c := s.threads[t].c;
    assert Known(s, c);
    hide Inv, MessageInv, ThreadInv, Holders, Referrers, Deleters, Step;
    PushMessageStep(s, t);
    var s' := Step(s, t, PushMessage);
    Counts(s, s', t, c);
    Counts(s, s', t, q);
    LinksPush(s.global, c, q);
  }

  lemma PushMessageMessages(s: State, t: Tid, q: Id)
    requires Inv(s) && t in s.threads && s.threads[t].Sending? && Known(s, q)
    ensures MessageInv(Step(s, t, PushMessage).services[q])
  {
    ThreadOk(s, t);
    assert Known(s, s.threads[t].c) && MessageInv(s.services[q]) && ServiceInv(s, q);
    NotReleased(s, t, s.threads[t].c);
    hide Inv, ServiceInv, Queues, Refers, Deletes, Step;
    PushMessageStep(s, t);
  }

  lemma PushMessageKeeps(s: State, t: Tid)
    requires Inv(s) && t in s.threads && s.threads[t].Sending?
    ensures Inv(Step(s, t, PushMessage))
  {
    ThreadOk(s, t);
    hide Holders, Referrers, Deleters, Step, ServiceInv, MessageInv;
    PushMessageStep(s, t);
    var s' := Step(s, t, PushMessage);
    Counts(s, s', t, s.threads[t].c);
    forall q | 0 <= q < |s'.services| ensures ServiceInv(s', q) && MessageInv(s'.services[q]) {
      PushMessageService(s, t, q);
      PushMessageMessages(s, t, q);
    }
    Assemble(s, s', t);
  }

  lemma Fresh(s: State)
    requires Inv(s)
    ensures Holders(s.threads, |s.services|) == 0 && Referrers(s.threads, |s.services|) == 0
    ensures Deleters(s.threads, |s.services|) == 0 && Links(s, |s.services|) == 0
  {
    hide ServiceInv, MessageInv, Queues, Refers, Deletes;
    CountsZero(s.threads, |s.services|);
    assert !Known(s, |s.services|);
    assert |s.services| !in s.global;
  }

  lemma CreateKeeps(s: State, t: Tid)
    requires Inv(s) && t in s.threads && s.threads[t] == Idle
    ensures Inv(Step(s, t, Create))
  {
    hide Holders, Referrers, Deleters, ServiceInv, MessageInv;
    var s' := Step(s, t, Create);
    forall q | 0 <= q < |s'.services| ensures ServiceInv(s', q) && MessageInv(s'.services[q]) { CreateService(s, t, q); }
    Assemble(s, s', t);
  }

  lemma CreateService(s: State, t: Tid, q: Id)
    requires Inv(s) && t in s.threads && s.threads[t] == Idle && q <= |s.services|
    ensures ServiceInv(Step(s, t, Create), q) && MessageInv(Step(s, t, Create).services[q])
  {
    hide Holders, Referrers, Deleters, ThreadInv;
    Fresh(s);
    if q < |s.services| { assert ServiceInv(s, q) && MessageInv(s.services[q]); }
    Counts(s, Step(s, t, Create), t, q);
  }

  lemma InitDoneKeeps(s: State, t: Tid, ok: bool)
    requires Inv(s) && t in s.threads && s.threads[t].Creating?
    ensures Inv(Step(s, t, InitDone(ok)))
  {
    hide Holders, Referrers, Deleters, MessageInv;
    var s' := Step(s, t, InitDone(ok));
    Counts(s, s', t, s.threads[t].q);
    forall q | 0 <= q < |s'.services| ensures ServiceInv(s', q) { Counts(s, s', t, q); }
    Assemble(s, s', t);
  }

  lemma PublishQueueService(s: State, t: Tid, q: Id)
    requires Inv(s) && t in s.threads && s.threads[t].Publishing? && Known(s, q)
    ensures ServiceInv(Step(s, t, PublishQueue), q)
  {
    ThreadOk(s, t);
    var c := s.threads[t].q;
    assert Known(s, c);
    hide Inv, MessageInv, ThreadInv, Holders, Referrers, Deleters;
    var s' := Step(s, t, PublishQueue);
    Counts(s, s', t, c);
    Counts(s, s', t, q);
    LinksPush(s.global, c, q);
  }

  lemma PublishQueueMessages(s: State, t: Tid, q: Id)
    requires Inv(s) && t in s.threads && s.threads[t].Publishing? && Known(s, q)
    ensures MessageInv(Step(s, t, PublishQueue).services[q])
  {
    ThreadOk(s, t);
    assert Known(s, s.threads[t].q) && MessageInv(s.services[q]) && ServiceInv(s, q);
    hide Inv, ServiceInv, Queues, Refers, Deletes;
  }

  lemma PublishQueueKeeps(s: State, t: Tid)
    requires Inv(s) && t in s.threads && s.threads[t].Publishing?
    ensures Inv(Step(s, t, PublishQueue))
  {
    ThreadOk(s, t);
    hide Holders, Referrers, Deleters, ServiceInv, MessageInv;
    var s' := Step(s, t, PublishQueue);
    Counts(s, s', t, s.threads[t].q);
    forall q | 0 <= q < |s'.services| ensures ServiceInv(s', q) && MessageInv(s'.services[q]) {
      PublishQueueService(s, t, q);
      PublishQueueMessages(s, t, q);
    }
    Assemble(s, s', t);
  }

  lemma FailRetireService(s: State, t: Tid, q: Id)
    requires Inv(s) && t in s.threads && s.threads[t].FailRetiring? && Known(s, q)
    ensures ServiceInv(Step(s, t, FailRetire), q)
  {
    ThreadOk(s, t);
    var c := s.threads[t].q;
    assert Known(s, c);
    hide Inv, MessageInv, ThreadInv, Holders, Referrers, Deleters;
    var s' := Step(s, t, FailRetire);
    Counts(s, s', t, c);
    Counts(s, s', t, q);
  }

  lemma FailRetireMessages(s: State, t: Tid, q: Id)
    requires Inv(s) && t in s.threads && s.threads[t].FailRetiring? && Known(s, q)
    ensures MessageInv(Step(s, t, FailRetire).services[q])
  {
    ThreadOk(s, t);
    assert Known(s, s.threads[t].q) && MessageInv(s.services[q]) && ServiceInv(s, q);
    hide Inv, ServiceInv, Queues, Refers, Deletes;
  }

  lemma FailRetireKeeps(s: State, t: Tid)
    requires Inv(s) && t in s.threads && s.threads[t].FailRetiring?
    ensures Inv(Step(s, t, FailRetire))
  {
    ThreadOk(s, t);
    hide Holders, Referrers, Deleters, ServiceInv, MessageInv;
    var s' := Step(s, t, FailRetire);
    Counts(s, s', t, s.threads[t].q);
    forall q | 0 <= q < |s'.services| ensures ServiceInv(s', q) && MessageInv(s'.services[q]) {
      FailRetireService(s, t, q);
      FailRetireMessages(s, t, q);
    }
    Assemble(s, s', t);
  }

  lemma KillKeeps(s: State, t: Tid, c: Id)
    requires Inv(s) && t in s.threads && s.threads[t] == Idle
    ensures Inv(Step(s, t, Kill(c)))
  {
    hide Holders, Referrers, Deleters;
    var s' := Step(s, t, Kill(c));
    if Known(s, c) && s.services[c].inTable {
      Counts(s, s', t, c);
      forall q | 0 <= q < |s'.services| ensures ServiceInv(s', q) { Counts(s, s', t, q); }
      forall q | 0 <= q < |s'.services| ensures MessageInv(s'.services[q]) { Counts(s, s', t, q); }
      Assemble(s, s', t);
    }
  }

  /** Every step keeps the protocol. */
  lemma StepKeeps(s: State, t: Tid, a: Action)
    requires Inv(s)
    ensures Inv(Step(s, t, a))
  {
    hide Inv;
    if t in s.threads {
      match (s.threads[t], a)
      case (Idle, TakeQueue) => TakeQueueKeeps(s, t);
      case (Held(_), Grab) => GrabKeeps(s, t);
      case (Working(_), PopMessage(more)) => PopMessageKeeps(s, t, more);
      case (Finishing(_), NextQueue) => NextQueueKeeps(s, t);
      case (Swapping(_, _), PushBack) => PushBackKeeps(s, t);
      case (Releasing(_, _), Release) => ReleaseKeeps(s, t);
      case (Deleting(_, _), Mark) => MarkKeeps(s, t);
      case (Returning(_), MqRelease) => MqReleaseKeeps(s, t);
      case (Dropping(_), DropMessage) => DropMessageKeeps(s, t);
      case (Freeing(_), Free) => FreeKeeps(s, t);
      case (Idle, StartSend(c, m)) => StartSendKeeps(s, t, c, m);
      case (Sending(_, _), PushMessage) => PushMessageKeeps(s, t);
      case (Idle, Create) => CreateKeeps(s, t);
      case (Creating(_), InitDone(ok)) => InitDoneKeeps(s, t, ok);
      case (Publishing(_), PublishQueue) => PublishQueueKeeps(s, t);
      case (FailRetiring(_), FailRetire) => FailRetireKeeps(s, t);
      case (Idle, Kill(c)) => KillKeeps(s, t, c);
      case _ =>
    }
  }

  lemma {:induction false} RunKeeps(s: State, steps: seq<(Tid, Action)>)
    requires Inv(s)
    ensures Inv(Run(s, steps))
    decreases |steps|
  {
    hide Inv, Step;
    if steps != [] {
      StepKeeps(s, steps[0].0, steps[0].1);
      RunKeeps(Step(s, steps[0].0, steps[0].1), steps[1..]);
    }
  }

  lemma StartHolds(tids: set<Tid>)
    ensures Inv(Start(tids))
  {
  }

  // What the protocol gives.

  ghost predicate HoldsIt(s: State, t: Tid, q: Id) { t in s.threads && q in Queues(s.threads[t]) }

  /** At most one link, at most one holder, never both. */
  ghost predicate Exclusive(s: State, q: Id) {
    && Links(s, q) <= 1
    && (forall t, u :: HoldsIt(s, t, q) && HoldsIt(s, u, q) ==> t == u)
    && (Links(s, q) == 1 ==> forall t :: !HoldsIt(s, t, q))
  }

  /** No message is stranded: a queue that has one is linked or held. */
  ghost predicate Scheduled(s: State, q: Id)
    requires Known(s, q)
  {
    s.services[q].msgs != [] ==> Links(s, q) == 1 || exists t :: HoldsIt(s, t, q)
  }

  /** Deletion and freeing happen once each, in this order, and only when no reference is left;
      what was popped is a prefix of what was pushed, dispatched first and dropped after. */
  ghost predicate LifeCycle(s: State, q: Id)
    requires Known(s, q)
  {
    var o := s.services[q];
    && o.deletions <= 1 && o.frees <= o.deletions
    && (o.deletions == 1 ==> !o.inTable && forall t :: t in s.threads ==> !Refers(s.threads[t], q))
    && Messages(o.popped) <= o.pushed
    && (o.frees == 1 ==> Messages(o.popped) == o.pushed && Links(s, q) == 0 && forall t :: !HoldsIt(s, t, q))
    && exists k :: TurnsAt(o.popped, k)
  }

  predicate TurnsAt(log: seq<(Message, Fate)>, k: nat) {
    && k <= |log|
    && (forall i :: 0 <= i < k ==> log[i].1 == Dispatched)
    && (forall i :: k <= i < |log| ==> log[i].1 == Dropped)
  }

  lemma OneHolder(s: State, q: Id)
    ensures Holders(s.threads, q) <= 1 ==> forall t, u :: HoldsIt(s, t, q) && HoldsIt(s, u, q) ==> t == u
    ensures Holders(s.threads, q) == 0 ==> forall t :: !HoldsIt(s, t, q)
    ensures Holders(s.threads, q) > 0 ==> exists t :: HoldsIt(s, t, q)
  {
    hide Queues;
    var h := HolderSet(s.threads, q);
    if |h| <= 1 {
      forall t, u | HoldsIt(s, t, q) && HoldsIt(s, u, q) ensures t == u {
        assert {t, u} <= h;
        if t != u {
          SetCount(h, h - {t}, t);
          SetCount(h - {t}, h - {t} - {u}, u);
        }
      }
    }
    forall t | HoldsIt(s, t, q) ensures t in h {}
    if |h| > 0 {
      var t :| t in h;
      assert HoldsIt(s, t, q);
    }
  }

  lemma NoReferrer(threads: map<Tid, Pc>, c: Id)
    requires Referrers(threads, c) == 0
    ensures forall t :: t in threads ==> !Refers(threads[t], c)
  {
    forall t | t in threads ensures !Refers(threads[t], c) { CountsPositive(threads, t, c); }
  }

  /** Dispatched messages come before dropped ones: there is a point where it changes. */
  lemma {:induction false} Turning(log: seq<(Message, Fate)>) returns (k: nat)
    requires forall i, j :: 0 <= i < j < |log| && log[i].1 == Dropped ==> log[j].1 == Dropped
    ensures TurnsAt(log, k)
  {
    k := 0;
    while k < |log| && log[k].1 == Dispatched
      invariant k <= |log| && forall i :: 0 <= i < k ==> log[i].1 == Dispatched
    {
      k := k + 1;
    }
  }

  /** In every state of every run, whatever the interleaving. */
  lemma AlwaysSafe(tids: set<Tid>, steps: seq<(Tid, Action)>, q: Id)
    requires Known(Run(Start(tids), steps), q)
    ensures Exclusive(Run(Start(tids), steps), q)
    ensures Scheduled(Run(Start(tids), steps), q)
    ensures LifeCycle(Run(Start(tids), steps), q)
  {
    hide Run, Holders, Referrers, Deleters, Queues, Refers;
    var s := Run(Start(tids), steps);
    StartHolds(tids);
    RunKeeps(Start(tids), steps);
    assert ServiceInv(s, q) && MessageInv(s.services[q]);
    OneHolder(s, q);
    if s.services[q].deletions == 1 { NoReferrer(s.threads, q); }
    var k := Turning(s.services[q].popped);
  }

  /** Nothing leaks: once all threads are idle and the global list is empty, every service
      out of the handle table has been deleted and freed exactly once with every message
      pushed to it dispatched or dropped, and every other one has an empty queue. */
  lemma QuiescentMeansDone(tids: set<Tid>, steps: seq<(Tid, Action)>, q: Id)
    requires Known(Run(Start(tids), steps), q)
    requires Run(Start(tids), steps).global == []
    requires forall t :: t in Run(Start(tids), steps).threads ==> Run(Start(tids), steps).threads[t] == Idle
    ensures
      var o := Run(Start(tids), steps).services[q];
      && Messages(o.popped) == o.pushed
      && (if o.inTable then o.deletions == 0 && o.frees == 0 && o.ref == 1 else o.deletions == 1 && o.frees == 1)
      && (o.inTable ==> forall i :: 0 <= i < |o.popped| ==> o.popped[i].1 == Dispatched)
  {
    hide Run, Holders, Referrers, Deleters;
    var s := Run(Start(tids), steps);
    StartHolds(tids);
    RunKeeps(Start(tids), steps);
    assert ServiceInv(s, q) && MessageInv(s.services[q]);
    CountsZero(s.threads, q);
  }
}
