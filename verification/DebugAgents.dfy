/** A debug agent in the driver: its event queue, the outstanding request of the security server, and
    the ring buffer that holds the queue. */
module DebugAgents {
  import opened Wrappers
  import opened EventQueue

  /** The request whose completion the security server waits for. A completion carries the event written
      for it, or nothing when writing failed. */
  datatype Request = Idle | Pending | Done(code: Error, data: Option<Event>)

  datatype Agent = Agent(
    id: nat,
    actions: map<EventType, Action>,
    queue: Queue,
    balance: nat,
    client: bool,
    dying: bool,
    request: Request)

  function NewAgent(id: nat): Agent {
    Agent(id, map[], NOTHING, 0, false, false, Idle)
  }

  /** Event kinds that have a case in the routine writing events out. */
  predicate Deliverable(kind: EventType) {
    !kind.BufferFull? && !kind.Unknown? && !kind.Last?
  }

  function Written(e: Event): Option<Event> {
    if Deliverable(e.kind) then Some(e) else None
  }

  function ActionFor(a: Agent, kind: EventType): Action {
    if kind in a.actions then a.actions[kind] else Ignore
  }

  function SetAction(a: Agent, kind: EventType, action: Action): (Agent, Error) {
    if kind.Last? then (a, ErrArgument) else (a.(actions := a.actions[kind := action]), ErrNone)
  }

  /** Completes the request with the oldest event. */
  function Deliver(a: Agent): Agent
    requires a.queue.items != [] && a.balance > 0
  {
    a.(request := Done(ErrNone, Written(a.queue.items[0])),
       balance := a.balance - 1,
       queue := a.queue.(items := a.queue.items[1..]))
  }

  function AfterGet(a: Agent): Agent {
    var waiting := a.(request := Pending, balance := a.balance + 1, client := true);
    if a.queue.items == [] || !Deliverable(a.queue.items[0].kind) then waiting else Deliver(waiting)
  }

  /** Completing a request that is not pending does nothing. */
  function AfterCancel(a: Agent): Agent {
    a.(request := if a.request.Pending? then Done(ErrCancel, None) else a.request, balance := 0, client := false)
  }

  /** A crash of a critical or permanent thread of the agent's own process. */
  predicate EndsAgent(a: Agent, e: Event) {
    && e.processId == a.id
    && (e.kind.SwExc? || e.kind.HwExc? || e.kind.KillThread?)
    && ((e.critical && (!e.kind.KillThread? || !e.exit.ExitKill?)) || e.permanent)
  }

  function EffectiveAction(a: Agent, e: Event): Action {
    var action := ActionFor(a, e.kind);
    if (a.dying || EndsAgent(a, e)) && action.Suspend? then Ignore else action
  }

  /** Whether the notification suspends the thread; breakpoint handling has done so already. */
  predicate Suspends(a: Agent, e: Event) {
    && !e.kind.Last?
    && EffectiveAction(a, e).Suspend?
    && !e.kind.BreakPoint? && !e.kind.ProcessBreakPoint?
  }

  function AfterNotify(limits: Limits, a: Agent, e: Event): Agent {
    if e.kind.Last? then a
    else
      var action := EffectiveAction(a, e);
      var noted := a.(dying := a.dying || EndsAgent(a, e));
      if action.Ignore? then noted
      else
        var queued := noted.(queue := Enqueue(limits, a.queue, e.(actionTaken := action)));
        if queued.client && queued.balance > 0 && queued.queue.items != [] then Deliver(queued) else queued
  }

  lemma EnqueueIsNotEmpty(limits: Limits, q: Queue, e: Event)
    ensures limits.critical < SLOTS ==> Enqueue(limits, q, e).items != []
  {
  }

  // ---------------------------------------------------------------- the ring buffer

  /** The k-th slot from the tail on. */
  function Slot(tail: nat, k: nat): (slot: nat)
    requires tail < SLOTS && k <= SLOTS
    ensures slot < SLOTS && slot == (tail + k) % SLOTS
  {
    if tail + k < SLOTS then tail + k else tail + k - SLOTS
  }

  lemma SlotsDiffer(tail: nat, j: nat, k: nat)
    ensures tail < SLOTS && j < SLOTS && k < SLOTS ==> Slot(tail, j) == Slot(tail, k) ==> j == k
  {
  }

  lemma NextSlot(tail: nat, k: nat)
    ensures tail < SLOTS && k < SLOTS ==>
      Slot(tail, k + 1) == (Slot(tail, k) + 1) % SLOTS == Slot((tail + 1) % SLOTS, k)
  {
  }

  class DebugAgent {
    const id: nat
    const slots: array<Event>
    var actions: map<EventType, Action>
    var head: nat
    var tail: nat
    var freeSlots: nat
    var ignoringTrace: bool
    var balance: nat
    var client: bool
    var dying: bool
    var request: Request

    ghost predicate Valid()
      reads this, slots
    {
      && slots.Length == SLOTS
      && tail < SLOTS && freeSlots <= SLOTS
      && head == Slot(tail, SLOTS - freeSlots)
      && (forall k :: SLOTS - freeSlots <= k < SLOTS ==> slots[Slot(tail, k)] == EMPTY)
    }

    /** The occupied slots, from the tail on. */
    ghost function Contents(): (items: seq<Event>)
      reads this, slots
      requires Valid()
    {
      seq(SLOTS - freeSlots, k requires 0 <= k < SLOTS - freeSlots reads this, slots requires Valid() => slots[Slot(tail, k)])
    }

    ghost function View(): Agent
      reads this, slots
      requires Valid()
    {
      Agent(id, actions, Queue(Contents(), ignoringTrace), balance, client, dying, request)
    }

    constructor (id: nat)
      ensures Valid() && fresh(slots)
      ensures View() == NewAgent(id)
    {
      this.id := id;
      slots := new Event[SLOTS](_ => EMPTY);
      actions := map[];
      head, tail, freeSlots := 0, 0, SLOTS;
      ignoringTrace, balance, client, dying, request := false, 0, false, false, Idle;
    }

    method SetEventAction(kind: EventType, action: Action) returns (err: Error)
      requires Valid()
      modifies `actions
      ensures Valid() && (View(), err) == SetAction(old(View()), kind, action)
    {
      if kind.Last? {
        return ErrArgument;
      }
      actions := actions[kind := action];
      assert Contents() == old(Contents());
      err := ErrNone;
    }

    /** Fills the slot at the head. */
    method Store(e: Event)
      requires Valid() && freeSlots > 0
      modifies `head, `freeSlots, slots
      ensures Valid() && Contents() == old(Contents()) + [e] && freeSlots == old(freeSlots) - 1
    {
      ghost var before := Contents();
      ghost var occupied := SLOTS - freeSlots;
      NextSlot(tail, occupied);
      forall k | 0 <= k < SLOTS ensures Slot(tail, k) == head ==> k == occupied {
        SlotsDiffer(tail, k, occupied);
      }
      slots[head] := e;
      head := (head + 1) % SLOTS;
      freeSlots := freeSlots - 1;
      assert Contents() == before + [e];
    }

    /** Empties the slot at the tail. */
    method RemoveOldest()
      requires Valid() && freeSlots < SLOTS
      modifies `tail, `freeSlots, slots
      ensures Valid() && Contents() == old(Contents())[1..] && freeSlots == old(freeSlots) + 1
    {
      ghost var before := Contents();
      ghost var from := tail;
      slots[tail] := EMPTY;
      tail := (tail + 1) % SLOTS;
      freeSlots := freeSlots + 1;
      forall k | 0 <= k < SLOTS ensures Slot(tail, k) == Slot(from, k + 1) {
        NextSlot(from, k);
      }
      forall k | 0 <= k < SLOTS ensures Slot(from, k) == from ==> k == 0 {
        SlotsDiffer(from, k, 0);
      }
      assert Contents() == before[1..];
    }

    /** With the limits as built the branch for the last free slot is never taken. */
    method QueueEvent(e: Event)
      requires Valid()
      modifies `head, `freeSlots, `ignoringTrace, slots
      ensures Valid()
      ensures View() == old(View()).(queue := Enqueue(AS_BUILT, old(View()).queue, e))
    {
      if freeSlots == 0 {
        return;
      }
      assert slots[head] == EMPTY by {
        assert slots[Slot(tail, SLOTS - freeSlots)] == EMPTY;
      }
      var atCritical := freeSlots < SLOTS - AS_BUILT.critical;
      if !atCritical {
        ignoringTrace := false;
        Store(e);
      } else if freeSlots > 0 {
        if e.kind.UserTrace? {
          if !ignoringTrace {
            Store(TRACES_LOST);
            ignoringTrace := true;
          }
        } else {
          Store(e);
        }
      } else {
        assert false;
      }
    }

    /** Completes the request with the oldest event, whether or not that could be written out. */
    method CompleteRequest()
      requires Valid() && Contents() != [] && balance > 0
      modifies `request, `balance, `tail, `freeSlots, slots
      ensures Valid() && View() == Deliver(old(View()))
    {
      assert |Contents()| > 0;
      assert slots[Slot(tail, 0)] == Contents()[0];
      request := Done(ErrNone, Written(slots[tail]));
      balance := balance - 1;
      RemoveOldest();
    }

    method GetEvent()
      requires Valid()
      modifies this, slots
      ensures Valid() && View() == AfterGet(old(View()))
    {
      request := Pending;
      balance := balance + 1;
      client := true;
      if freeSlots == SLOTS {
        return;
      }
      assert |Contents()| > 0;
      assert slots[Slot(tail, 0)] == Contents()[0];
      if !Deliverable(slots[tail].kind) {
        return;
      }
      CompleteRequest();
    }

    method CancelGetEvent()
      requires Valid()
      modifies `request, `balance, `client
      ensures Valid() && View() == AfterCancel(old(View()))
    {
      if request.Pending? {
        request := Done(ErrCancel, None);
      }
      balance := 0;
      client := false;
    }

    method DecideAction(e: Event) returns (action: Action)
      requires Valid() && !e.kind.Last?
      modifies `dying
      ensures Valid() && View() == old(View()).(dying := old(View()).dying || EndsAgent(old(View()), e))
      ensures action == EffectiveAction(old(View()), e)
    {
      action := if e.kind in actions then actions[e.kind] else Ignore;
      if e.processId == id && (e.kind.SwExc? || e.kind.HwExc? || e.kind.KillThread?) {
        var problematic := (e.critical && (!e.kind.KillThread? || !e.exit.ExitKill?)) || e.permanent;
        if problematic {
          dying := true;
        }
      }
      assert Contents() == old(Contents());
      if dying && action.Suspend? {
        action := Ignore;
      }
    }

    method NotifyEvent(e: Event) returns (suspended: bool)
      requires Valid()
      modifies this, slots
      ensures Valid() && View() == AfterNotify(AS_BUILT, old(View()), e)
      ensures suspended == Suspends(old(View()), e)
    {
      hide Enqueue;
      hide Deliver;
      ghost var a := View();
      suspended := false;
      if e.kind.Last? {
        return;
      }
      var action := DecideAction(e);
      if action.Ignore? {
        return;
      }
      if action.Suspend? && !e.kind.BreakPoint? && !e.kind.ProcessBreakPoint? {
        suspended := true;
      }
      QueueEvent(e.(actionTaken := action));
      if client && balance > 0 {
        EnqueueIsNotEmpty(AS_BUILT, a.queue, e.(actionTaken := action));
        CompleteRequest();
      }
    }
  }

  // ---------------------------------------------------------------- a dying agent

  /** Once the agent is dying no notification suspends a thread or queues a suspended event, and it
      stays dying. */
  lemma DyingNeverSuspends(limits: Limits, a: Agent, e: Event)
    requires a.dying
    ensures !Suspends(a, e)
    ensures var after := AfterNotify(limits, a, e);
      && after.dying
      && (forall x :: x in after.queue.items && x !in a.queue.items ==> !x.actionTaken.Suspend?)
  {
    var action := EffectiveAction(a, e);
    var queued := Enqueue(limits, a.queue, e.(actionTaken := action));
    var after := AfterNotify(limits, a, e);
    forall x | x in after.queue.items && x !in a.queue.items ensures !x.actionTaken.Suspend? {
      if !e.kind.Last? && !action.Ignore? {
        assert x in queued.items;
      }
    }
  }

  // ---------------------------------------------------------------- a living agent

  /** The event ends a thread the agent's own process cannot do without. */
  predicate EndsProcess(a: Agent, e: Event) {
    && e.processId == a.id
    && match e.kind
       case SwExc => e.critical || e.permanent
       case HwExc => e.critical || e.permanent
       case KillThread => e.permanent || (e.critical && e.exit != ExitKill)
       case _ => false
  }

  /** The agent is told of the event: an action is configured, and it is not a suspension the agent cannot have. */
  predicate IsTold(a: Agent, e: Event) {
    && !e.kind.Last? && e.kind in a.actions
    && (a.actions[e.kind] == Continue || (a.actions[e.kind] == Suspend && !a.dying && !EndsProcess(a, e)))
  }

  /** What a notification does: the thread is suspended exactly when the agent asked for that, lives on, and the event
      is no breakpoint; the event is queued, with the action asked for, exactly when the agent is told of it, and then
      ends a waiting request with the oldest event; and the agent starts dying exactly when the event ends its process. */
  lemma NotifyOutcome(limits: Limits, a: Agent, e: Event)
    requires limits.critical < SLOTS
    ensures var after := AfterNotify(limits, a, e);
      && (Suspends(a, e) <==>
        IsTold(a, e) && a.actions[e.kind] == Suspend && e.kind != BreakPoint && e.kind != ProcessBreakPoint)
      && (after.dying <==> a.dying || EndsProcess(a, e))
      && (!IsTold(a, e) ==> after == a.(dying := after.dying))
      && (IsTold(a, e) ==> (
        var queue := Enqueue(limits, a.queue, e.(actionTaken := a.actions[e.kind]));
        && queue.items != []
        && after == if a.client && a.balance > 0 then
            a.(dying := after.dying, queue := queue.(items := queue.items[1..]), balance := a.balance - 1,
               request := Done(ErrNone, Written(queue.items[0])))
          else a.(dying := after.dying, queue := queue)))
  {
    if IsTold(a, e) {
      EnqueueIsNotEmpty(limits, a.queue, e.(actionTaken := a.actions[e.kind]));
    }
    hide Enqueue;
  }
}
