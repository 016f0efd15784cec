/** The event queue of a debug agent: what is queued when it fills up, first in first out over every
    run, and how the loss of events is announced. */
module EventQueue {
  import opened Wrappers

  const SLOTS := 128

  datatype EventType =
    | BreakPoint | SwExc | HwExc | KillThread | AddLibrary | RemoveLibrary | BufferFull | Unknown
    | UserTrace | ProcessBreakPoint | StartThread | UserTracesLost | AddProcess | RemoveProcess
    | Last

  datatype Action = Ignore | Suspend | Continue

  datatype ExitType = ExitKill | ExitTerminate | ExitPanic | ExitPending

  datatype Event = Event(
    kind: EventType,
    processId: nat,
    threadId: nat,
    critical: bool,
    permanent: bool,
    exit: ExitType,
    actionTaken: Action,
    detail: int)

  const EMPTY := Event(Unknown, 0, 0, false, false, ExitKill, Ignore, 0)
  const TRACES_LOST := EMPTY.(kind := UserTracesLost)
  const BUFFER_FULL := EMPTY.(kind := BufferFull)

  /** Above `critical` queued events traces are refused. With `reserve` free slots or fewer, a non-empty
      queue takes nothing but the buffer-full marker. */
  datatype Limits = Limits(critical: nat, reserve: nat)

  /** The limits in the driver: an event can be stored while any slot is free. */
  const AS_BUILT := Limits(64, 0)

  /** The limits its documentation gives: the last free slot is kept for the buffer-full marker. */
  const AS_DOCUMENTED := Limits(64, 1)

  datatype Queue = Queue(items: seq<Event>, ignoringTrace: bool)

  const NOTHING := Queue([], false)

  /** What became of an event that was to be queued. */
  datatype Fate = StoredBelowCritical | StoredAtCritical | TraceLossAnnounced | TraceIgnored | FullAnnounced | Refused

  function FateOf(limits: Limits, q: Queue, e: Event): Fate {
    if |q.items| >= SLOTS then Refused
    else if |q.items| <= limits.critical then StoredBelowCritical
    else if SLOTS - |q.items| > limits.reserve then
      if !e.kind.UserTrace? then StoredAtCritical
      else if q.ignoringTrace then TraceIgnored
      else TraceLossAnnounced
    else FullAnnounced
  }

  /** The slot filled, if one is. */
  function Inserted(fate: Fate, e: Event): seq<Event> {
    match fate
    case StoredBelowCritical => [e]
    case StoredAtCritical => [e]
    case TraceLossAnnounced => [TRACES_LOST]
    case TraceIgnored => []
    case FullAnnounced => [BUFFER_FULL]
    case Refused => []
  }

  function IgnoringAfter(fate: Fate, ignoring: bool): bool {
    match fate
    case StoredBelowCritical => false
    case TraceLossAnnounced => true
    case _ => ignoring
  }

  function Enqueue(limits: Limits, q: Queue, e: Event): Queue {
    var fate := FateOf(limits, q, e);
    Queue(q.items + Inserted(fate, e), IgnoringAfter(fate, q.ignoringTrace))
  }

  // ---------------------------------------------------------------- runs

  datatype Operation = Put(event: Event) | Take

  /** A queue with its history: what was inserted, and what was taken. */
  datatype History = History(queue: Queue, inserted: seq<Event>, taken: seq<Event>)

  const START := History(NOTHING, [], [])

  function Operate(limits: Limits, h: History, op: Operation): History {
    match op
    case Put(e) =>
      var fate := FateOf(limits, h.queue, e);
      History(Enqueue(limits, h.queue, e), h.inserted + Inserted(fate, e), h.taken)
    case Take =>
      if h.queue.items == [] then h
      else h.(queue := h.queue.(items := h.queue.items[1..]), taken := h.taken + [h.queue.items[0]])
  }

  function Run(limits: Limits, ops: seq<Operation>): History
    decreases |ops|
  {
    if ops == [] then START else Operate(limits, Run(limits, ops[..|ops| - 1]), ops[|ops| - 1])
  }

  lemma OperateKeepsOrder(limits: Limits, h: History, op: Operation)
    requires h.taken + h.queue.items == h.inserted && |h.queue.items| <= SLOTS
    ensures var after := Operate(limits, h, op);
      after.taken + after.queue.items == after.inserted && |after.queue.items| <= SLOTS
  {
    match op
    case Put(e) =>
      Associate(h.taken, h.queue.items, Inserted(FateOf(limits, h.queue, e), e));
    case Take =>
      if h.queue.items != [] {
        Associate(h.taken, [h.queue.items[0]], h.queue.items[1..]);
        assert [h.queue.items[0]] + h.queue.items[1..] == h.queue.items;
      }
  }

  /** Over every run, what was taken followed by what is queued is what was inserted, in order. */
  lemma {:induction false} FirstInFirstOut(limits: Limits, ops: seq<Operation>)
    ensures var h := Run(limits, ops);
      h.taken + h.queue.items == h.inserted && |h.queue.items| <= SLOTS
    decreases |ops|
  {
    hide Operate;
    if ops == [] {
    } else {
      FirstInFirstOut(limits, ops[..|ops| - 1]);
      OperateKeepsOrder(limits, Run(limits, ops[..|ops| - 1]), ops[|ops| - 1]);
    }
  }

  // ---------------------------------------------------------------- announced loss

  /** The history before the last operation. */
  function Before(limits: Limits, ops: seq<Operation>): History
    requires ops != []
  {
    Run(limits, ops[..|ops| - 1])
  }

  /** The last operation inserted this event. */
  predicate Inserts(limits: Limits, ops: seq<Operation>, e: Event)
    requires ops != []
  {
    Run(limits, ops).inserted == Before(limits, ops).inserted + [e]
  }

  /** The last operation put an event that was stored while the queue was at or below the critical level. */
  predicate StoresLow(limits: Limits, ops: seq<Operation>)
    requires ops != []
  {
    var op := ops[|ops| - 1];
    op.Put? && |Before(limits, ops).queue.items| <= limits.critical && Inserts(limits, ops, op.event)
  }

  /** The last operation put a trace that was not stored, although more slots were free than are reserved. */
  predicate LeavesTraceOut(limits: Limits, ops: seq<Operation>)
    requires ops != []
  {
    var op := ops[|ops| - 1];
    && op.Put? && op.event.kind.UserTrace?
    && |Before(limits, ops).queue.items| + limits.reserve < SLOTS
    && !Inserts(limits, ops, op.event)
  }

  /** A trace has been left out since an event was last stored at or below the critical level. */
  predicate LosesTraces(limits: Limits, ops: seq<Operation>)
    decreases |ops|
  {
    ops != [] && !StoresLow(limits, ops) && (LeavesTraceOut(limits, ops) || LosesTraces(limits, ops[..|ops| - 1]))
  }

  /** The traces-lost markers inserted since then, not counting any that were put as events themselves. */
  function Markers(limits: Limits, ops: seq<Operation>): nat
    decreases |ops|
  {
    if ops == [] || StoresLow(limits, ops) then 0
    else
      Markers(limits, ops[..|ops| - 1]) +
      if Inserts(limits, ops, TRACES_LOST) && ops[|ops| - 1] != Put(TRACES_LOST) then 1 else 0
  }

  lemma AppendsOne(all: seq<Event>, e: Event, f: Event)
    ensures all + [e] == all + [f] <==> e == f
    ensures all + [e] != all && all + [] == all
  {
    assert (all + [e])[|all|] == e && (all + [f])[|all|] == f && |all + [e]| == |all| + 1;
  }

  /** What one put of an event does, in terms of the run. */
  lemma PutInserts(limits: Limits, ops: seq<Operation>, e: Event)
    requires ops != [] && ops[|ops| - 1] == Put(e) && e != TRACES_LOST
    requires limits.critical < SLOTS
    ensures var before := Before(limits, ops);
      var room := |before.queue.items| + limits.reserve < SLOTS;
      && (StoresLow(limits, ops) <==> |before.queue.items| <= limits.critical)
      && (LeavesTraceOut(limits, ops) <==> e.kind.UserTrace? && room && |before.queue.items| > limits.critical)
      && (Inserts(limits, ops, TRACES_LOST) <==> LeavesTraceOut(limits, ops) && !before.queue.ignoringTrace)
      && Run(limits, ops).queue.ignoringTrace ==
           (!StoresLow(limits, ops) && (LeavesTraceOut(limits, ops) || before.queue.ignoringTrace))
  {
    var before := Before(limits, ops);
    AppendsOne(before.inserted, e, TRACES_LOST);
    AppendsOne(before.inserted, TRACES_LOST, e);
    AppendsOne(before.inserted, BUFFER_FULL, e);
    AppendsOne(before.inserted, BUFFER_FULL, TRACES_LOST);
  }

  lemma OtherInserts(limits: Limits, ops: seq<Operation>)
    requires ops != [] && (ops[|ops| - 1].Take? || ops[|ops| - 1] == Put(TRACES_LOST)) && limits.critical < SLOTS
    ensures !LeavesTraceOut(limits, ops)
    ensures Inserts(limits, ops, TRACES_LOST) ==> ops[|ops| - 1] == Put(TRACES_LOST)
    ensures Run(limits, ops).queue.ignoringTrace == (!StoresLow(limits, ops) && Before(limits, ops).queue.ignoringTrace)
  {
    var before := Before(limits, ops);
    AppendsOne(before.inserted, TRACES_LOST, BUFFER_FULL);
    AppendsOne(before.inserted, BUFFER_FULL, TRACES_LOST);
  }

  /** Over every run, since an event was last stored at or below the critical level, exactly one traces-lost marker
      was inserted if a trace was left out, and none if none was. */
  lemma {:induction false} TraceLossIsAnnouncedOnce(limits: Limits, ops: seq<Operation>)
    requires limits.critical < SLOTS
    ensures Markers(limits, ops) == if LosesTraces(limits, ops) then 1 else 0
    ensures Run(limits, ops).queue.ignoringTrace <==> LosesTraces(limits, ops)
    decreases |ops|
  {
    hide Run;
    hide Inserts;
    hide StoresLow;
    hide LeavesTraceOut;
    if ops == [] {
      NothingIgnored(limits);
    } else {
      TraceLossIsAnnouncedOnce(limits, ops[..|ops| - 1]);
      var op := ops[|ops| - 1];
      if op.Put? && op.event != TRACES_LOST {
        PutInserts(limits, ops, op.event);
      } else {
        OtherInserts(limits, ops);
      }
    }
  }

  lemma NothingIgnored(limits: Limits)
    ensures !Run(limits, []).queue.ignoringTrace
  {
  }

  /** A trace that is left out makes the marker the newest entry of the queue if it is the first to be left out, and
      changes nothing otherwise. */
  lemma FirstLostTraceIsMarked(limits: Limits, ops: seq<Operation>)
    requires limits.critical < SLOTS && ops != [] && LeavesTraceOut(limits, ops)
    ensures Run(limits, ops).queue.items == Before(limits, ops).queue.items +
      if LosesTraces(limits, ops[..|ops| - 1]) then [] else [TRACES_LOST]
  {
    TraceLossIsAnnouncedOnce(limits, ops[..|ops| - 1]);
    PutInserts(limits, ops, ops[|ops| - 1].event);
    hide LosesTraces;
    hide Markers;
  }

  /** An event other than a trace is queued itself exactly when enough slots are free; as built, exactly
      when the queue is not full, and a trace exactly when the queue is at or below the critical level. */
  lemma WhenItIsStored(limits: Limits, q: Queue, e: Event)
    requires |q.items| <= SLOTS && limits.critical < SLOTS
    requires e != TRACES_LOST && e != BUFFER_FULL
    ensures Enqueue(limits, q, e).items == q.items + [e] <==>
      |q.items| <= limits.critical || (!e.kind.UserTrace? && |q.items| + limits.reserve < SLOTS)
    ensures limits == AS_BUILT && !e.kind.UserTrace? ==>
      (Enqueue(limits, q, e).items == q.items + [e] <==> |q.items| < 128)
    ensures limits == AS_BUILT && e.kind.UserTrace? ==>
      (Enqueue(limits, q, e).items == q.items + [e] <==> |q.items| <= 64)
  {
    var fate := FateOf(limits, q, e);
    var after := Enqueue(limits, q, e).items;
    if fate.TraceIgnored? || fate.Refused? {
      assert |after| == |q.items|;
    } else {
      assert after[|q.items|] == Inserted(fate, e)[0];
    }
  }

  // ---------------------------------------------------------------- the buffer-full marker

  /** A full queue tells its reader that events were lost: its newest entry is the buffer-full marker. */
  predicate FullEndsInMarker(q: Queue) {
    |q.items| == SLOTS ==> q.items[SLOTS - 1] == BUFFER_FULL
  }

  lemma {:induction false} ReserveKeepsMarker(limits: Limits, ops: seq<Operation>)
    requires limits.critical < SLOTS - 1 && limits.reserve >= 1
    ensures var q := Run(limits, ops).queue; |q.items| <= SLOTS && FullEndsInMarker(q)
    decreases |ops|
  {
    if ops == [] {
    } else {
      ReserveKeepsMarker(limits, ops[..|ops| - 1]);
    }
  }

  /** An event that finds a slot free, but no more than are reserved, is left out, and the buffer-full marker becomes the
      newest entry; one that finds no slot free changes nothing. */
  lemma LostEventIsMarked(limits: Limits, ops: seq<Operation>, e: Event)
    requires |Run(limits, ops).queue.items| > limits.critical && |Run(limits, ops).queue.items| + limits.reserve >= SLOTS
    ensures var before, after := Run(limits, ops), Run(limits, ops + [Put(e)]);
      && after.queue == before.queue.(items := after.queue.items)
      && after.queue.items == before.queue.items + if |before.queue.items| < SLOTS then [BUFFER_FULL] else []
  {
    assert (ops + [Put(e)])[..|ops|] == ops;
  }

  function Puts(e: Event, n: nat): (ops: seq<Operation>)
    ensures |ops| == n
  {
    seq(n, _ => Put(e))
  }

  /** Without a reserve, events other than traces fill every slot. */
  lemma {:induction false} FillsUp(limits: Limits, e: Event, n: nat)
    requires limits.reserve == 0 && n <= SLOTS && !e.kind.UserTrace?
    ensures Run(limits, Puts(e, n)).queue.items == seq(n, _ => e)
    decreases n
  {
    if n == 0 {
    } else {
      FillsUp(limits, e, n - 1);
      assert Puts(e, n)[..n - 1] == Puts(e, n - 1);
    }
  }

  /** A full queue always ends in the buffer-full marker exactly when a slot is kept in reserve for it. */
  lemma MarkerNeedsReserve(limits: Limits)
    requires limits.critical < SLOTS - 1
    ensures (forall ops :: FullEndsInMarker(Run(limits, ops).queue)) <==> limits.reserve >= 1
  {
    if limits.reserve >= 1 {
      forall ops ensures FullEndsInMarker(Run(limits, ops).queue) {
        ReserveKeepsMarker(limits, ops);
      }
    } else {
      var e := EMPTY.(kind := BreakPoint);
      FillsUp(limits, e, SLOTS);
      assert !FullEndsInMarker(Run(limits, Puts(e, SLOTS)).queue);
    }
  }

  /** As built no buffer-full marker is ever inserted: a full queue drops every event, and nothing queued says so. */
  lemma {:induction false} AsBuiltNeverMarks(ops: seq<Operation>)
    requires Put(BUFFER_FULL) !in ops
    ensures BUFFER_FULL !in Run(AS_BUILT, ops).inserted
    ensures |Run(AS_BUILT, ops).queue.items| >= SLOTS ==> forall e :: Run(AS_BUILT, ops + [Put(e)]) == Run(AS_BUILT, ops)
    decreases |ops|
  {
    if ops == [] {
    } else {
      AsBuiltNeverMarks(ops[..|ops| - 1]);
    }
    forall e | |Run(AS_BUILT, ops).queue.items| >= SLOTS ensures Run(AS_BUILT, ops + [Put(e)]) == Run(AS_BUILT, ops) {
      assert (ops + [Put(e)])[..|ops|] == ops;
    }
  }

  /** The documented limits would keep the promise: over every run a full queue ends in the marker. With the
      limits as built some run fills it with a break point instead. */
  lemma DocumentedLimitsMark(ops: seq<Operation>)
    ensures FullEndsInMarker(Run(AS_DOCUMENTED, ops).queue)
    ensures exists other :: !FullEndsInMarker(Run(AS_BUILT, other).queue)
  {
    ReserveKeepsMarker(AS_DOCUMENTED, ops);
    MarkerNeedsReserve(AS_BUILT);
  }
}
