/** The breakpoint list of the run-mode debug driver: what each public call does to the list and
    to code memory, as functions on the driver state. The breakpoint lock makes each call atomic. */
module Breakpoints {
  import opened Wrappers
  import opened CodeMemory

  const TEMP_BREAKS := 10
  const MAX_BREAKS := 100

  datatype BreakEntry = BreakEntry(
    breakId: int,
    id: nat,
    threadSpecific: bool,
    address: Address,
    mode: Mode,
    instruction: seq<Byte>,
    disabledForStep: bool,
    resumeOnce: bool,
    numSteps: int)

  /** Live threads, each with its owning process. */
  type Threads = map<nat, nat>

  /** The breakpoint list and next id, memory as it stands, what the code modifier remembers, and the live
      threads. `base` is what memory would hold with nothing planted: raw memory and what is remembered
      determine it, and no call looks at it. */
  datatype State = State(
    list: seq<BreakEntry>,
    nextId: int,
    raw: Memory,
    plants: Plants,
    base: Memory,
    threads: Threads)
  {
    predicate IsUser(i: int) {
      TEMP_BREAKS <= i < |list|
    }
  }

  /** Clears everything but the id and the thread-specific flag. */
  function Cleared(entry: BreakEntry): BreakEntry {
    entry.(id := 0, address := 0, mode := Arm, instruction := [0, 0, 0, 0],
           disabledForStep := false, resumeOnce := false, numSteps := 0)
  }

  function NewEntry(breakId: int, id: nat, threadSpecific: bool, address: Address, mode: Mode): BreakEntry {
    BreakEntry(breakId, id, threadSpecific, address, mode, [0, 0, 0, 0], false, false, 0)
  }

  function Fresh(program: Memory, threads: Threads): State {
    State(seq(TEMP_BREAKS, i => NewEntry(i, 0, false, 0, Arm)), TEMP_BREAKS, program, map[], program, threads)
  }

  /** The thread whose handle is opened for an entry: a process's first thread has the next id. */
  function HandleId(entry: BreakEntry): nat {
    entry.id + if entry.threadSpecific then 0 else 1
  }

  // ---------------------------------------------------------------- overlap

  /** Reinterprets a 32-bit value as a signed integer, dropping carries. */
  function ToInt32(x: int): int {
    var low := x % ADDRESS_SPACE;
    if low < 0x8000_0000 then low else low - ADDRESS_SPACE
  }

  /** The driver's overlap test: signed 32-bit start and end addresses. */
  predicate Overlap(a: int, m: Mode, b: int, n: Mode) {
    var first, second := ToInt32(a), ToInt32(b);
    || BreakSize(m) == 0
    || BreakSize(n) == 0
    || !(|| ToInt32(first + BreakSize(m) - 1) < second
         || ToInt32(second + BreakSize(n) - 1) < first)
  }

  // ---------------------------------------------------------------- kernel contract

  /** Planting; planting again where it is planted changes nothing that is remembered. */
  function ModifyCode(s: State, address: Address, mode: Mode): State
    requires Mapped(s.raw, address, BreakSize(mode))
  {
    s.(raw := Poke(s.raw, address, BreakBytes(mode)), plants := Planted(s.raw, s.plants, address, mode))
  }

  predicate CanRestore(s: State, address: int) {
    address in s.plants
  }

  /** Puts back the bytes remembered for a planted location, whatever has been written there since. */
  function RestoreCode(s: State, address: Address): State {
    if CanRestore(s, address) then
      s.(raw := Poke(s.raw, address, s.plants[address].original), plants := s.plants - {address})
    else s
  }

  // ---------------------------------------------------------------- enable, set, clear

  /** Some user breakpoint at this address is not disabled for a step. */
  predicate AlreadySet(list: seq<BreakEntry>, address: int) {
    exists i :: TEMP_BREAKS <= i < |list| && list[i].address == address && !list[i].disabledForStep
  }

  function Enable(s: State, entry: BreakEntry, save: bool): (r: (State, BreakEntry, Error))
    ensures r.0.list == s.list
  {
    if BreakSize(entry.mode) == 0 then (s, entry, ErrNotSupported)
    else if HandleId(entry) !in s.threads then (s, entry, ErrBadHandle)
    else if !Mapped(s.raw, entry.address, BreakSize(entry.mode)) then (s, entry, ErrBadPointer)
    else
      var saved := if save then entry.(instruction := Peek(s.raw, entry.address, BreakSize(entry.mode))) else entry;
      if AlreadySet(s.list, entry.address) then (s, saved, ErrNone)
      else (ModifyCode(s, entry.address, entry.mode), saved, ErrNone)
  }

  /** Why a new breakpoint may not coexist with an existing one, if it may not. */
  function Conflict(threads: Threads, id: nat, threadSpecific: bool, address: Address, mode: Mode, present: BreakEntry): Error {
    if BreakSize(mode) == 0 || BreakSize(present.mode) == 0 then ErrNotSupported
    else if !Overlap(address, mode, present.address, present.mode) then ErrNone
    else if present.threadSpecific == threadSpecific then
      if id == present.id then ErrAlreadyExists else ErrNone
    else
      var thread, process := if threadSpecific then id else present.id, if threadSpecific then present.id else id;
      if thread !in threads then ErrNotFound
      else if threads[thread] == process then ErrAlreadyExists
      else ErrNone
  }

  /** The first conflict with the entries from index i on. */
  function FirstConflict(s: State, id: nat, threadSpecific: bool, address: Address, mode: Mode, i: nat): Error
    decreases |s.list| - i
  {
    if i >= |s.list| then ErrNone
    else
      var err := Conflict(s.threads, id, threadSpecific, address, mode, s.list[i]);
      if err != ErrNone then err else FirstConflict(s, id, threadSpecific, address, mode, i + 1)
  }

  function SetBreak(s: State, id: nat, threadSpecific: bool, address: Address, mode: Mode): (State, Error) {
    if mode == Thumb2EE then (s, ErrNotSupported)
    else if |s.list| + 1 >= MAX_BREAKS then (s, ErrOverflow)
    else if !Aligned(address, mode) then (s, ErrArgument)
    else
      var conflict := FirstConflict(s, id, threadSpecific, address, mode, TEMP_BREAKS);
      if conflict != ErrNone then (s, conflict)
      else
        var (enabled, entry, err) :=
          Enable(s.(nextId := s.nextId + 1), NewEntry(s.nextId, id, threadSpecific, address, mode), true);
        if err != ErrNone then (enabled, err)
        else (enabled.(list := enabled.list + [entry]), ErrNone)
  }

  /** Index of the entry with this id from index i on, or -1. */
  function Find(list: seq<BreakEntry>, breakId: int, i: nat): int
    decreases |list| - i
  {
    if i >= |list| then -1
    else if list[i].breakId == breakId then i
    else Find(list, breakId, i + 1)
  }

  /** Another user breakpoint overlaps the one at this index. */
  predicate OverlappedByOther(list: seq<BreakEntry>, index: nat)
    requires index < |list|
  {
    exists i :: TEMP_BREAKS <= i < |list| && i != index
      && Overlap(list[index].address, list[index].mode, list[i].address, list[i].mode)
  }

  /** Temporary slots are emptied in place; user entries leave the list. */
  function Dropped(list: seq<BreakEntry>, index: nat): seq<BreakEntry>
    requires index < |list|
  {
    if index < TEMP_BREAKS then list[index := Cleared(list[index])] else list[..index] + list[index + 1..]
  }

  function ClearBreak(s: State, breakId: int, ignoreTerminated: bool): (State, Error) {
    var index := Find(s.list, breakId, 0);
    if !(0 <= index < |s.list|) then (s, ErrNotFound)
    else if HandleId(s.list[index]) !in s.threads then
      if ignoreTerminated then (s.(list := Dropped(s.list, index)), ErrNone) else (s, ErrBadHandle)
    else
      var restored := if OverlappedByOther(s.list, index) then s else RestoreCode(s, s.list[index].address);
      (restored.(list := Dropped(s.list, index)), ErrNone)
  }

  /** Removes the breakpoints of a dying thread, from index i - 1 down. */
  function RemoveThreadBreaks(s: State, threadId: nat, i: nat): State
    decreases i
  {
    if i == 0 || i > |s.list| then s
    else if s.list[i - 1].address != 0 && HandleId(s.list[i - 1]) == threadId then
      var (cleared, err) := ClearBreak(s, s.list[i - 1].breakId, false);
      if err != ErrNone then cleared else RemoveThreadBreaks(cleared, threadId, i - 1)
    else RemoveThreadBreaks(s, threadId, i - 1)
  }

  /** Restores the code under every entry from index i on. */
  function RestoreFrom(s: State, i: nat): State
    decreases |s.list| - i
  {
    if i >= |s.list| then s
    else if s.list[i].address != 0 && HandleId(s.list[i]) in s.threads then
      RestoreFrom(RestoreCode(s, s.list[i].address), i + 1)
    else RestoreFrom(s, i + 1)
  }

  function ClearAll(s: State): State {
    RestoreFrom(s, 0).(list := [])
  }

  // ---------------------------------------------------------------- disable and re-enable for a step

  /** Unplants the user breakpoints at an address, from index i on; stops at the first error. */
  function DisableAt(s: State, address: Address, i: nat): (State, Error)
    decreases |s.list| - i
  {
    if i >= |s.list| then (s, ErrNone)
    else if s.list[i].address == address then
      var marked := s.(list := s.list[i := s.list[i].(disabledForStep := true)]);
      if !HandleLive(s, s.list[i]) then (marked, ErrBadHandle)
      else if !CanRestore(s, address) then (marked, ErrNotFound)
      else DisableAt(RestoreCode(marked, address), address, i + 1)
    else DisableAt(s, address, i + 1)
  }

  /** A thread to act through exists: the entry's own, or any of the entry's process. */
  predicate HandleLive(s: State, entry: BreakEntry) {
    if entry.threadSpecific then entry.id in s.threads
    else exists t :: t in s.threads && s.threads[t] == entry.id
  }

  /** The breakpoint applies to the thread. */
  predicate InScope(entry: BreakEntry, threadId: nat, processId: nat) {
    entry.id == if entry.threadSpecific then threadId else processId
  }

  /** Plants the thread's disabled breakpoints again, from index i on; stops at the first error. */
  function EnableDisabled(s: State, threadId: nat, processId: nat, i: nat): State
    decreases |s.list| - i
  {
    if i >= |s.list| then s
    else if s.list[i].disabledForStep && InScope(s.list[i], threadId, processId) then
      var (enabled, _, err) := Enable(s, s.list[i], false);
      if err != ErrNone then s.(list := s.list[i := s.list[i].(disabledForStep := false)])
      else EnableDisabled(enabled, threadId, processId, i + 1)
    else EnableDisabled(s, threadId, processId, i + 1)
  }
}
