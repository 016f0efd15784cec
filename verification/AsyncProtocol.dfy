/** The GetEvent protocol between a debug agent's client, the security server and the driver: one
    outstanding request, its completion by an event or by a cancel, and no message answered twice. */
module AsyncProtocol {
  import opened Wrappers
  import opened EventQueue
  import opened DebugAgents

  /** The answer to a client message. */
  datatype Reply = Reply(message: nat, code: Error, event: Option<Event>)

  /** The driver's agent and the security server's active object for it, the only caller of the agent.
      Client messages are numbered as they arrive. */
  datatype System = System(agent: Agent, active: bool, message: nat, nextMessage: nat, replies: seq<Reply>)

  datatype Step =
    | Ask
    | Raise(event: Event)
    | RunL
    | Cancel
    | SetEventAction(kind: EventType, action: Action)

  function AfterAsk(s: System): System {
    if s.active then
      s.(nextMessage := s.nextMessage + 1, replies := s.replies + [Reply(s.nextMessage, ErrInUse, None)])
    else
      s.(active := true, message := s.nextMessage, nextMessage := s.nextMessage + 1, agent := AfterGet(s.agent))
  }

  /** Runs once the request is complete. */
  function AfterRunL(s: System): System {
    if s.active && s.agent.request.Done? then
      s.(active := false, agent := s.agent.(request := Idle),
         replies := s.replies + [Reply(s.message, s.agent.request.code,
                                       if s.agent.request.code == ErrNone then s.agent.request.data else None)])
    else s
  }

  /** Cancelling also waits for the request, so it is over whether or not an event completed it first. */
  function AfterCancelling(s: System): System {
    if s.active then
      s.(active := false, agent := AfterCancel(s.agent).(request := Idle),
         replies := s.replies + [Reply(s.message, ErrCancel, None)])
    else s
  }

  function Next(limits: Limits, s: System, step: Step): System {
    match step
    case Ask => AfterAsk(s)
    case Raise(e) => s.(agent := AfterNotify(limits, s.agent, e))
    case RunL => AfterRunL(s)
    case Cancel => AfterCancelling(s)
    case SetEventAction(kind, action) => s.(agent := SetAction(s.agent, kind, action).0)
  }

  /** An event taken from the queue for delivery, and whether the client received it. */
  datatype Taken = Taken(event: Event, received: bool)

  /** A system with its history: the requests accepted, those passed on complete and those cancelled, the events
      queued, and the events taken. */
  datatype Trace = Trace(
    s: System, accepted: nat, passedOn: nat, cancelled: nat, queued: seq<Event>, taken: seq<Taken>)

  function Begin(id: nat): Trace {
    Trace(System(NewAgent(id), false, 0, 0, []), 0, 0, 0, [], [])
  }

  /** What a notification puts in the queue. */
  function Queued(limits: Limits, a: Agent, e: Event): seq<Event> {
    var action := EffectiveAction(a, e);
    if e.kind.Last? || action.Ignore? then []
    else Inserted(FateOf(limits, a.queue, e.(actionTaken := action)), e.(actionTaken := action))
  }

  /** The event of a completed request that the server has not passed on yet. */
  function InFlight(s: System): seq<Event> {
    if s.agent.request.Done? && s.agent.request.data.Some? then [s.agent.request.data.value] else []
  }

  function Marked(events: seq<Event>, received: bool): seq<Taken> {
    seq(|events|, i requires 0 <= i < |events| => Taken(events[i], received))
  }

  function Record(limits: Limits, t: Trace, step: Step): Trace {
    var s := Next(limits, t.s, step);
    match step
    case Ask => t.(s := s, accepted := t.accepted + if t.s.active then 0 else 1)
    case Raise(e) => t.(s := s, queued := t.queued + Queued(limits, t.s.agent, e))
    case RunL =>
      t.(s := s, passedOn := t.passedOn + if t.s.active && t.s.agent.request.Done? then 1 else 0,
         taken := t.taken + if t.s.active then Marked(InFlight(t.s), true) else [])
    case Cancel =>
      t.(s := s, cancelled := t.cancelled + if t.s.active then 1 else 0,
         taken := t.taken + if t.s.active then Marked(InFlight(t.s), false) else [])
    case SetEventAction(_, _) => t.(s := s)
  }

  function Run(limits: Limits, id: nat, steps: seq<Step>): Trace
    decreases |steps|
  {
    if steps == [] then Begin(id) else Record(limits, Run(limits, id, steps[..|steps| - 1]), steps[|steps| - 1])
  }

  // ---------------------------------------------------------------- one outstanding request

  /** A waiting request and an event that could complete it never coexist. */
  ghost predicate Waiting(s: System) {
    && s.agent.balance <= 1
    && (s.active <==> !s.agent.request.Idle?)
    && (s.agent.balance == 1 <==> s.agent.request.Pending?)
    && (s.agent.request.Pending? ==> s.agent.client)
    && (s.agent.request.Done? ==> s.agent.request.code == ErrNone)
    && (s.agent.balance == 1 ==> s.agent.queue.items == [] || !Deliverable(s.agent.queue.items[0].kind))
  }

  lemma NextKeepsWaiting(limits: Limits, s: System, step: Step)
    requires Waiting(s)
    ensures Waiting(Next(limits, s, step))
  {
    if step.Raise? {
      assert Waiting(s.(agent := AfterNotify(limits, s.agent, step.event)));
    }
  }

  // ---------------------------------------------------------------- each message answered once

  function Answers(replies: seq<Reply>, message: nat): nat
    decreases |replies|
  {
    if replies == [] then 0
    else Answers(replies[..|replies| - 1], message) + if replies[|replies| - 1].message == message then 1 else 0
  }

  lemma AnswersAppend(replies: seq<Reply>, reply: Reply, message: nat)
    ensures Answers(replies + [reply], message) == Answers(replies, message) + if reply.message == message then 1 else 0
  {
    assert (replies + [reply])[..|replies|] == replies;
  }

  /** Every message that has arrived is answered once, except the one being served. */
  ghost predicate AnsweredOnce(s: System) {
    && (s.active ==> s.message < s.nextMessage)
    && (forall m: nat :: Answers(s.replies, m) == if m < s.nextMessage && !(s.active && m == s.message) then 1 else 0)
  }

  lemma NextKeepsAnsweredOnce(limits: Limits, s: System, step: Step)
    requires AnsweredOnce(s)
    ensures AnsweredOnce(Next(limits, s, step))
  {
    var after := Next(limits, s, step);
    forall m: nat
      ensures Answers(after.replies, m) == if m < after.nextMessage && !(after.active && m == after.message) then 1 else 0
    {
      assert Answers(s.replies, m) == if m < s.nextMessage && !(s.active && m == s.message) then 1 else 0;
      if |after.replies| > |s.replies| {
        AnswersAppend(s.replies, after.replies[|s.replies|], m);
      }
    }
  }

  // ---------------------------------------------------------------- accepted requests

  function CountCode(replies: seq<Reply>, code: Error): nat
    decreases |replies|
  {
    if replies == [] then 0
    else CountCode(replies[..|replies| - 1], code) + if replies[|replies| - 1].code == code then 1 else 0
  }

  lemma CountAppend(replies: seq<Reply>, reply: Reply, code: Error)
    ensures CountCode(replies + [reply], code) == CountCode(replies, code) + if reply.code == code then 1 else 0
  {
    assert (replies + [reply])[..|replies|] == replies;
  }

  /** Each request passed on was answered with success and each cancelled one with the cancel code; the accepted ones
      are these, the completed one not passed on, and the balance; and every message not accepted was refused. */
  ghost predicate Balanced(t: Trace) {
    && CountCode(t.s.replies, ErrNone) == t.passedOn
    && CountCode(t.s.replies, ErrCancel) == t.cancelled
    && t.accepted == t.passedOn + t.cancelled + (if t.s.agent.request.Done? then 1 else 0) + t.s.agent.balance
    && t.s.nextMessage == t.accepted + CountCode(t.s.replies, ErrInUse)
  }

  /** The counts of the replies after one more. */
  ghost predicate CountsOneMore(before: seq<Reply>, after: seq<Reply>, code: Error) {
    && CountCode(after, ErrNone) == CountCode(before, ErrNone) + (if code == ErrNone then 1 else 0)
    && CountCode(after, ErrCancel) == CountCode(before, ErrCancel) + (if code == ErrCancel then 1 else 0)
    && CountCode(after, ErrInUse) == CountCode(before, ErrInUse) + (if code == ErrInUse then 1 else 0)
  }

  lemma OneMore(replies: seq<Reply>, reply: Reply)
    ensures CountsOneMore(replies, replies + [reply], reply.code)
  {
    CountAppend(replies, reply, ErrNone);
    CountAppend(replies, reply, ErrCancel);
    CountAppend(replies, reply, ErrInUse);
    hide CountCode;
  }

  lemma AskBalances(limits: Limits, t: Trace)
    ensures Waiting(t.s) && Balanced(t) ==> Balanced(Record(limits, t, Step.Ask))
  {
    hide CountCode;
    hide Deliverable;
    if Waiting(t.s) && Balanced(t) {
      if t.s.active {
        OneMore(t.s.replies, Reply(t.s.nextMessage, ErrInUse, None));
      }
    }
  }

  lemma RunLBalances(limits: Limits, t: Trace)
    ensures Waiting(t.s) && Balanced(t) ==> Balanced(Record(limits, t, RunL))
  {
    hide CountCode;
    hide Deliverable;
    hide Marked;
    if Waiting(t.s) && Balanced(t) {
      if t.s.active && t.s.agent.request.Done? {
        OneMore(t.s.replies, Reply(t.s.message, ErrNone, t.s.agent.request.data));
      }
    }
  }

  lemma CancelBalances(limits: Limits, t: Trace)
    ensures Waiting(t.s) && Balanced(t) ==> Balanced(Record(limits, t, Cancel))
  {
    hide CountCode;
    hide Deliverable;
    hide Marked;
    if Waiting(t.s) && Balanced(t) {
      if t.s.active {
        OneMore(t.s.replies, Reply(t.s.message, ErrCancel, None));
      }
    }
  }

  /** A notification moves a request from the balance to the completed one, or leaves both alone. */
  lemma NotifyMoves(limits: Limits, s: System, e: Event)
    requires Waiting(s)
    ensures var after := AfterNotify(limits, s.agent, e);
      (if after.request.Done? then 1 else 0) + after.balance == (if s.agent.request.Done? then 1 else 0) + s.agent.balance
  {
    hide Enqueue;
    hide Written;
    hide Deliverable;
  }

  lemma RaiseBalances(limits: Limits, t: Trace, e: Event)
    ensures Waiting(t.s) && Balanced(t) ==> Balanced(Record(limits, t, Raise(e)))
  {
    if Waiting(t.s) && Balanced(t) {
      NotifyMoves(limits, t.s, e);
      hide AfterNotify;
      hide Queued;
      hide CountCode;
    }
  }

  lemma RecordKeepsBalanced(limits: Limits, t: Trace, step: Step)
    requires Waiting(t.s) && Balanced(t)
    ensures Balanced(Record(limits, t, step))
  {
    hide Waiting;
    match step
    case Ask => AskBalances(limits, t);
    case Raise(e) => RaiseBalances(limits, t, e);
    case RunL => RunLBalances(limits, t);
    case Cancel => CancelBalances(limits, t);
    case SetEventAction(kind, action) => hide CountCode;
  }

  // ---------------------------------------------------------------- where every event goes

  function EventsOf(taken: seq<Taken>): seq<Event>
    decreases |taken|
  {
    if taken == [] then [] else EventsOf(taken[..|taken| - 1]) + [taken[|taken| - 1].event]
  }

  /** The taken events the client received, in order. */
  function ReceivedOf(taken: seq<Taken>): seq<Event>
    decreases |taken|
  {
    if taken == [] then []
    else ReceivedOf(taken[..|taken| - 1]) + if taken[|taken| - 1].received then [taken[|taken| - 1].event] else []
  }

  /** The events in the replies, in order. */
  function RepliedEvents(replies: seq<Reply>): seq<Event>
    decreases |replies|
  {
    if replies == [] then []
    else RepliedEvents(replies[..|replies| - 1]) +
         if replies[|replies| - 1].event.Some? then [replies[|replies| - 1].event.value] else []
  }

  lemma RepliedAppend(replies: seq<Reply>, reply: Reply)
    ensures RepliedEvents(replies + [reply]) == RepliedEvents(replies) + if reply.event.Some? then [reply.event.value] else []
  {
    assert (replies + [reply])[..|replies|] == replies;
  }

  lemma TakenAppend(taken: seq<Taken>, events: seq<Event>, received: bool)
    ensures |events| <= 1 ==> EventsOf(taken + Marked(events, received)) == EventsOf(taken) + events
    ensures |events| <= 1 ==>
      ReceivedOf(taken + Marked(events, received)) == ReceivedOf(taken) + if received then events else []
  {
    if |events| <= 1 {
      if events == [] {
        assert taken + Marked(events, received) == taken;
      } else {
        assert (taken + Marked(events, received))[..|taken|] == taken;
        assert events == [events[0]];
      }
    }
  }

  ghost predicate AllDeliverable(events: seq<Event>) {
    forall e :: e in events ==> Deliverable(e.kind)
  }

  /** The events taken, the one in flight and those queued are the events queued in the first place, in
      order; and the client got exactly the ones marked received, in order. */
  ghost predicate Accounted(t: Trace) {
    && EventsOf(t.taken) + InFlight(t.s) + t.s.agent.queue.items == t.queued
    && RepliedEvents(t.s.replies) == ReceivedOf(t.taken)
    && AllDeliverable(t.queued)
  }

  /** The driver raises only events with a case in the routine writing them out. */
  predicate RaisesDeliverable(step: Step) {
    step.Raise? ==> Deliverable(step.event.kind) || step.event.kind.Last?
  }

  /** A notification completes the waiting request with the oldest event, or leaves the request alone. */
  lemma NotifyShape(limits: Limits, a: Agent, e: Event)
    requires limits.critical < SLOTS
    ensures var after, items := AfterNotify(limits, a, e), a.queue.items + Queued(limits, a, e);
      || (after.request == a.request && after.queue.items == items)
      || (a.balance > 0 && items != [] && after.request == Done(ErrNone, Written(items[0])) && after.queue.items == items[1..])
  {
  }

  lemma AllDeliverableConcat(all: seq<Event>, some: seq<Event>, more: seq<Event>)
    requires AllDeliverable(all) && AllDeliverable(more)
    requires forall x :: x in some ==> x in all
    ensures AllDeliverable(some + more)
  {
  }

  lemma NotifyKeepsOrder(limits: Limits, s: System, e: Event)
    requires limits.critical < SLOTS && Waiting(s)
    requires AllDeliverable(s.agent.queue.items + Queued(limits, s.agent, e))
    ensures var after := AfterNotify(limits, s.agent, e);
      InFlight(s.(agent := after)) + after.queue.items == InFlight(s) + (s.agent.queue.items + Queued(limits, s.agent, e))
  {
    NotifyShape(limits, s.agent, e);
    hide AfterNotify;
    hide Queued;
    var items := s.agent.queue.items + Queued(limits, s.agent, e);
    if items != [] {
      assert items[0] in items && items == [items[0]] + items[1..];
    }
  }

  lemma Regroup(taken: seq<Event>, flight: seq<Event>, items: seq<Event>, queued: seq<Event>,
      newFlight: seq<Event>, newItems: seq<Event>)
    ensures newFlight + newItems == flight + (items + queued) ==>
      taken + newFlight + newItems == taken + flight + items + queued
  {
    if newFlight + newItems == flight + (items + queued) {
      assert taken + newFlight + newItems == taken + (newFlight + newItems);
    }
  }

  lemma RaiseAccounts(limits: Limits, t: Trace, e: Event)
    requires limits.reserve == 0 && limits.critical < SLOTS && RaisesDeliverable(Raise(e))
    requires Waiting(t.s) && Accounted(t)
    ensures Accounted(Record(limits, t, Raise(e)))
  {
    var queued := Queued(limits, t.s.agent, e);
    var after := AfterNotify(limits, t.s.agent, e);
    assert AllDeliverable(Queued(limits, t.s.agent, e));
    hide AfterNotify;
    hide Queued;
    AllDeliverableConcat(t.queued, t.s.agent.queue.items, queued);
    AllDeliverableConcat(t.queued, t.queued, queued);
    NotifyKeepsOrder(limits, t.s, e);
    hide AllDeliverable;
    hide Waiting;
    hide EventsOf;
    hide InFlight;
    Regroup(EventsOf(t.taken), InFlight(t.s), t.s.agent.queue.items, queued,
            InFlight(t.s.(agent := after)), after.queue.items);
  }

  lemma AskAccounts(limits: Limits, t: Trace)
    ensures Waiting(t.s) && Accounted(t) ==> Accounted(Record(limits, t, Step.Ask))
  {
    if Waiting(t.s) && Accounted(t) {
      var after := Record(limits, t, Step.Ask).s;
      hide EventsOf;
      hide ReceivedOf;
      if t.s.active {
        RepliedAppend(t.s.replies, after.replies[|t.s.replies|]);
      } else if t.s.agent.queue.items != [] {
        assert t.s.agent.queue.items == [t.s.agent.queue.items[0]] + t.s.agent.queue.items[1..];
        assert t.s.agent.queue.items[0] in t.queued;
      }
    }
  }

  /** A request that ends takes the event in flight with it, and passes it on if the client receives it. */
  lemma EndAccounts(t: Trace, after: Trace, received: bool, reply: Reply)
    requires Accounted(t) && |InFlight(t.s)| <= 1
    requires after.queued == t.queued && after.s.agent.queue.items == t.s.agent.queue.items
    requires after.taken == t.taken + Marked(InFlight(t.s), received) && InFlight(after.s) == []
    requires after.s.replies == t.s.replies + [reply]
    requires (if reply.event.Some? then [reply.event.value] else []) == if received then InFlight(t.s) else []
    ensures Accounted(after)
  {
    hide EventsOf;
    hide ReceivedOf;
    hide RepliedEvents;
    hide Marked;
    hide InFlight;
    hide AllDeliverable;
    RepliedAppend(t.s.replies, reply);
    TakenAppend(t.taken, InFlight(t.s), received);
    assert EventsOf(after.taken) + InFlight(after.s) == EventsOf(t.taken) + InFlight(t.s);
    assert Accounted(after);
  }

  /** A step that takes nothing and answers nothing. */
  lemma IdleAccounts(t: Trace, after: Trace, received: bool)
    requires Accounted(t) && InFlight(t.s) == [] && InFlight(after.s) == []
    requires after.queued == t.queued && after.s.agent.queue.items == t.s.agent.queue.items
    requires after.taken == t.taken + Marked(InFlight(t.s), received) || after.taken == t.taken + []
    requires after.s.replies == t.s.replies
    ensures Accounted(after)
  {
    assert after.taken == t.taken;
  }

  lemma RunLAccounts(limits: Limits, t: Trace)
    ensures Waiting(t.s) && Accounted(t) ==> Accounted(Record(limits, t, RunL))
  {
    hide Accounted;
    if Waiting(t.s) && Accounted(t) {
      var after := Record(limits, t, RunL);
      if t.s.active && t.s.agent.request.Done? {
        EndAccounts(t, after, true, Reply(t.s.message, ErrNone, t.s.agent.request.data));
      } else {
        IdleAccounts(t, after, true);
      }
    }
  }

  lemma CancelAccounts(limits: Limits, t: Trace)
    ensures Waiting(t.s) && Accounted(t) ==> Accounted(Record(limits, t, Cancel))
  {
    hide Accounted;
    if Waiting(t.s) && Accounted(t) {
      var after := Record(limits, t, Cancel);
      if t.s.active {
        EndAccounts(t, after, false, Reply(t.s.message, ErrCancel, None));
      } else {
        IdleAccounts(t, after, false);
      }
    }
  }

  lemma RecordAccounts(limits: Limits, t: Trace, step: Step)
    requires limits.reserve == 0 && limits.critical < SLOTS && RaisesDeliverable(step)
    requires Waiting(t.s) && Accounted(t)
    ensures Accounted(Record(limits, t, step))
  {
    match step
    case Ask => AskAccounts(limits, t);
    case Raise(e) => RaiseAccounts(limits, t, e);
    case RunL => RunLAccounts(limits, t);
    case Cancel => CancelAccounts(limits, t);
    case SetEventAction(_, _) =>
  }

  /** Over every run: at most one request waits, and none while a deliverable event is queued; every
      message is answered once; and accepted requests are accounted for. */
  lemma {:induction false} ProtocolIsSafe(limits: Limits, id: nat, steps: seq<Step>)
    ensures var t := Run(limits, id, steps); Waiting(t.s) && AnsweredOnce(t.s) && Balanced(t)
    decreases |steps|
  {
    if steps == [] {
      assert var t := Begin(id); Waiting(t.s) && AnsweredOnce(t.s) && Balanced(t);
    } else {
      hide Waiting;
      hide AnsweredOnce;
      hide Balanced;
      ProtocolIsSafe(limits, id, steps[..|steps| - 1]);
      var t := Run(limits, id, steps[..|steps| - 1]);
      RecordStep(limits, t, steps[|steps| - 1]);
      hide Next;
      hide Record;
      NextKeepsWaiting(limits, t.s, steps[|steps| - 1]);
      NextKeepsAnsweredOnce(limits, t.s, steps[|steps| - 1]);
      RecordKeepsBalanced(limits, t, steps[|steps| - 1]);
    }
  }

  lemma RecordStep(limits: Limits, t: Trace, step: Step)
    ensures Record(limits, t, step).s == Next(limits, t.s, step)
  {
    hide Next;
  }

  /** Over every run with no slot reserved, as built, every event queued is queued still, in flight, received,
      or lost to a cancel, in the order queued; and a request waits only while the queue is empty. */
  lemma {:induction false} EventsAreAccountedFor(limits: Limits, id: nat, steps: seq<Step>)
    requires limits.reserve == 0 && limits.critical < SLOTS
    requires forall i :: 0 <= i < |steps| ==> RaisesDeliverable(steps[i])
    ensures var t := Run(limits, id, steps);
      Accounted(t) && (t.s.agent.balance == 1 ==> t.s.agent.queue.items == [])
    decreases |steps|
  {
    if steps == [] {
    } else {
      var t := Run(limits, id, steps[..|steps| - 1]);
      var after := Run(limits, id, steps);
      ProtocolIsSafe(limits, id, steps[..|steps| - 1]);
      ProtocolIsSafe(limits, id, steps);
      EventsAreAccountedFor(limits, id, steps[..|steps| - 1]);
      hide Record;
      RecordAccounts(limits, t, steps[|steps| - 1]);
      assert after.s.agent.queue.items != [] ==> after.s.agent.queue.items[0] in after.queued;
    }
  }

  // ---------------------------------------------------------------- what a cancel loses

  predicate NoneLost(taken: seq<Taken>) {
    forall i :: 0 <= i < |taken| ==> taken[i].received
  }

  /** A cancel that finds its request completed by an event. */
  predicate LosesEvent(s: System, step: Step) {
    step.Cancel? && s.active && InFlight(s) != []
  }

  /** One step loses an event exactly when it cancels a request that an event has completed already. */
  lemma CancelLosesCompletedEvent(limits: Limits, t: Trace, step: Step)
    requires NoneLost(t.taken)
    ensures NoneLost(Record(limits, t, step).taken) <==> !LosesEvent(t.s, step)
  {
    var after := Record(limits, t, step).taken;
    if LosesEvent(t.s, step) {
      assert after[|t.taken|] == Taken(InFlight(t.s)[0], false);
    }
  }

  lemma {:induction false} NoneLostReceivesAll(taken: seq<Taken>)
    ensures NoneLost(taken) ==> ReceivedOf(taken) == EventsOf(taken)
    decreases |taken|
  {
    if NoneLost(taken) {
      if taken == [] {
      } else {
        NoneLostReceivesAll(taken[..|taken| - 1]);
      }
    }
  }

  ghost predicate NeverLoses(limits: Limits, id: nat, steps: seq<Step>) {
    forall i {:trigger steps[i]} :: 0 <= i < |steps| ==> !LosesEvent(Run(limits, id, steps[..i]).s, steps[i])
  }

  lemma {:induction false} NeverLosesKeepsAll(limits: Limits, id: nat, steps: seq<Step>)
    ensures NeverLoses(limits, id, steps) ==> NoneLost(Run(limits, id, steps).taken)
    decreases |steps|
  {
    if NeverLoses(limits, id, steps) {
      if steps == [] {
      } else {
        var before := steps[..|steps| - 1];
        forall i | 0 <= i < |before| ensures !LosesEvent(Run(limits, id, before[..i]).s, before[i]) {
          assert before[..i] == steps[..i] && before[i] == steps[i];
        }
        NeverLosesKeepsAll(limits, id, before);
        assert !LosesEvent(Run(limits, id, before).s, steps[|before|]);
        CancelLosesCompletedEvent(limits, Run(limits, id, before), steps[|before|]);
      }
    }
  }

  /** Without such a cancel the client receives every event queued, once and in order, up to those still
      in flight or queued. */
  lemma EveryEventIsReceived(limits: Limits, id: nat, steps: seq<Step>)
    requires limits.reserve == 0 && limits.critical < SLOTS
    requires forall i :: 0 <= i < |steps| ==> RaisesDeliverable(steps[i])
    requires NeverLoses(limits, id, steps)
    ensures var t := Run(limits, id, steps);
      RepliedEvents(t.s.replies) + InFlight(t.s) + t.s.agent.queue.items == t.queued
  {
    EventsAreAccountedFor(limits, id, steps);
    NeverLosesKeepsAll(limits, id, steps);
    NoneLostReceivesAll(Run(limits, id, steps).taken);
  }

  // ---------------------------------------------------------------- a marker at the head of the queue

  /** A request made of an idle server is completed at once exactly when the oldest event can be written out;
      a marker left there by the documented limits keeps it waiting although events are queued behind it. */
  lemma WhenARequestWaits(s: System)
    requires Waiting(s) && !s.active
    ensures AfterAsk(s).agent.request.Pending? <==>
      s.agent.queue.items == [] || s.agent.queue.items[0].kind in {BufferFull, Unknown, Last}
    ensures !AfterAsk(s).agent.request.Pending? ==> InFlight(AfterAsk(s)) + AfterAsk(s).agent.queue.items == s.agent.queue.items
  {
    if s.agent.queue.items != [] {
      assert s.agent.queue.items == [s.agent.queue.items[0]] + s.agent.queue.items[1..];
    }
  }

  /** A waiting request with such a marker before it is completed by the next event the agent is told of, without
      an event: the marker is lost, and the client is answered as if the request had gone well. */
  lemma MarkerCompletesEmpty(limits: Limits, s: System, e: Event)
    requires limits.critical < SLOTS && Waiting(s) && s.agent.request.Pending? && s.agent.queue.items != []
    requires IsTold(s.agent, e)
    ensures var after := AfterRunL(s.(agent := AfterNotify(limits, s.agent, e)));
      && s.agent.queue.items[0].kind in {BufferFull, Unknown, Last}
      && after.replies == s.replies + [Reply(s.message, ErrNone, None)]
      && after.agent.queue.items == Enqueue(limits, s.agent.queue, e.(actionTaken := s.agent.actions[e.kind])).items[1..]
      && s.agent.queue.items[0] == Enqueue(limits, s.agent.queue, e.(actionTaken := s.agent.actions[e.kind])).items[0]
  {
    NotifyOutcome(limits, s.agent, e);
    hide AfterNotify;
  }

  // ---------------------------------------------------------------- what the agent was told to do

  /** The action last set for a kind of event. */
  function LastSet(steps: seq<Step>, kind: EventType): Option<Action>
    decreases |steps|
  {
    if steps == [] then None
    else
      var last := steps[|steps| - 1];
      if last.SetEventAction? && last.kind == kind && kind != Last then Some(last.action)
      else LastSet(steps[..|steps| - 1], kind)
  }

  /** Some event raised so far ended the agent's process. */
  function Ended(id: nat, steps: seq<Step>): bool
    decreases |steps|
  {
    steps != [] &&
    ((steps[|steps| - 1].Raise? && EndsProcess(NewAgent(id), steps[|steps| - 1].event)) || Ended(id, steps[..|steps| - 1]))
  }

  /** The agent's actions and whether it is dying, as the steps so far made them. */
  ghost predicate AsTold(id: nat, a: Agent, steps: seq<Step>) {
    && a.id == id && (a.dying <==> Ended(id, steps))
    && (forall kind: EventType :: (if kind in a.actions then Some(a.actions[kind]) else None) == LastSet(steps, kind))
  }

  lemma NotifyLeavesActions(limits: Limits, a: Agent, e: Event)
    ensures var after := AfterNotify(limits, a, e); after.id == a.id && after.actions == a.actions
    ensures AfterNotify(limits, a, e).dying <==> a.dying || EndsProcess(a, e)
  {
    hide Enqueue;
  }

  lemma NextIsTold(limits: Limits, id: nat, s: System, steps: seq<Step>, step: Step)
    requires AsTold(id, s.agent, steps)
    ensures AsTold(id, Next(limits, s, step).agent, steps + [step])
  {
    assert (steps + [step])[..|steps|] == steps;
    if step.Raise? {
      NotifyLeavesActions(limits, s.agent, step.event);
      hide AfterNotify;
    }
    hide Deliverable;
  }

  /** Over every run, the action taken for a kind of event is the last one set, and the agent is dying exactly when
      an event ended its process. */
  lemma {:induction false} AgentDoesAsTold(limits: Limits, id: nat, steps: seq<Step>)
    ensures AsTold(id, Run(limits, id, steps).s.agent, steps)
    decreases |steps|
  {
    hide Record;
    if steps == [] {
    } else {
      var before, last := steps[..|steps| - 1], steps[|steps| - 1];
      AgentDoesAsTold(limits, id, before);
      hide AsTold;
      NextIsTold(limits, id, Run(limits, id, before).s, before, last);
      RecordStep(limits, Run(limits, id, before), last);
      assert before + [last] == steps;
    }
  }

  /** An action is refused for the kind that only counts the others. */
  lemma OnlyLastIsRefused(a: Agent, kind: EventType, action: Action)
    ensures SetAction(a, kind, action).1 == (if kind == Last then ErrArgument else ErrNone)
    ensures SetAction(a, kind, action).1 != ErrNone ==> SetAction(a, kind, action).0 == a
  {
  }

  // ---------------------------------------------------------------- the active object

  class SecuritySvrAsync {
    const agent: DebugAgent
    var active: bool
    var message: nat
    var nextMessage: nat
    var replies: seq<Reply>

    ghost predicate Valid()
      reads this, agent, agent.slots
    {
      agent.Valid()
    }

    ghost function View(): System
      reads this, agent, agent.slots
      requires Valid()
    {
      System(agent.View(), active, message, nextMessage, replies)
    }

    constructor (id: nat)
      ensures Valid() && fresh(agent) && fresh(agent.slots)
      ensures View() == Begin(id).s
    {
      agent := new DebugAgent(id);
      active, message, nextMessage, replies := false, 0, 0, [];
    }

    method GetEvent()
      requires Valid()
      modifies this, agent, agent.slots
      ensures Valid() && View() == AfterAsk(old(View()))
    {
      if !active {
        message := nextMessage;
        active := true;
        agent.GetEvent();
      } else {
        replies := replies + [Reply(nextMessage, ErrInUse, None)];
      }
      nextMessage := nextMessage + 1;
    }

    method RunOnceComplete()
      requires Valid() && active && agent.request.Done?
      modifies this, agent`request
      ensures Valid() && View() == AfterRunL(old(View()))
    {
      active := false;
      if agent.request.code != ErrNone {
        replies := replies + [Reply(message, agent.request.code, None)];
      } else {
        replies := replies + [Reply(message, ErrNone, agent.request.data)];
      }
      agent.request := Idle;
      assert agent.Contents() == old(agent.Contents());
    }

    method CancelRequest()
      requires Valid()
      modifies this, agent`request, agent`balance, agent`client
      ensures Valid() && View() == AfterCancelling(old(View()))
    {
      if active {
        agent.CancelGetEvent();
        agent.request := Idle;
        replies := replies + [Reply(message, ErrCancel, None)];
        active := false;
        assert agent.Contents() == old(agent.Contents());
      }
    }
  }
}
