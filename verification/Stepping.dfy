/** Instruction stepping: the temporary breakpoint at the next instruction, the exception it raises,
    and what the driver does then, for one thread of the target. */
module Stepping {
  import opened Wrappers
  import opened CodeMemory
  import opened Breakpoints

  /** The processor: the successor of each instruction, and the instruction set of each code word. */
  datatype Cpu = Cpu(next: Address -> Address, thumb: int -> bool)

  datatype StopKind = ThreadBreak | ProcessBreak | Exception

  /** An event raised to the debug agents, with the program counter it reports. */
  datatype StopEvent = StopEvent(kind: StopKind, pc: Address)

  /** The driver and the thread: its program counter, how often it is suspended, and the events raised. */
  datatype Machine = Machine(
    s: State,
    threadId: nat,
    processId: nat,
    pc: Address,
    suspends: nat,
    events: seq<StopEvent>)

  function ModeAt(cpu: Cpu, address: Address): Mode {
    if cpu.thumb(address / 4) then Thumb else Arm
  }

  function Suspended(m: Machine): Machine {
    m.(suspends := m.suspends + 1)
  }

  function Resumed(m: Machine): Machine {
    m.(suspends := if m.suspends > 0 then m.suspends - 1 else 0)
  }

  function Notified(m: Machine, kind: StopKind): Machine {
    m.(events := m.events + [StopEvent(kind, m.pc)])
  }

  /** The first user breakpoint from index i on that stops the thread at an address, or -1. */
  function UserStop(m: Machine, list: seq<BreakEntry>, address: Address, i: nat): int
    decreases |list| - i
  {
    if i >= |list| then -1
    else if list[i].breakId >= TEMP_BREAKS && list[i].address == address && InScope(list[i], m.threadId, m.processId) then i
    else UserStop(m, list, address, i + 1)
  }

  /** The first temporary slot from index i on that is free, or -1. */
  function FreeTemp(list: seq<BreakEntry>, i: nat): int
    decreases |list| - i
  {
    if i >= |list| then -1
    else if list[i].breakId < TEMP_BREAKS && list[i].address == 0 then i
    else FreeTemp(list, i + 1)
  }

  /** A temporary slot filled in for a step to an address. */
  function StepEntry(cpu: Cpu, m: Machine, slot: BreakEntry, address: Address, resumeOnce: bool, numSteps: int): BreakEntry {
    slot.(id := m.threadId, threadSpecific := true, address := address, mode := ModeAt(cpu, address),
          resumeOnce := resumeOnce, numSteps := numSteps)
  }

  /** Puts a temporary breakpoint at an address, unless a user breakpoint stops the thread there anyway. */
  function PlantStop(cpu: Cpu, m: Machine, s: State, address: Address, resumeOnce: bool, numSteps: int): (State, Error) {
    var user := UserStop(m, s.list, address, 0);
    if 0 <= user < |s.list| then
      (s.(list := s.list[user := s.list[user].(numSteps := 0)]), ErrNone)
    else
      var temp := FreeTemp(s.list, 0);
      if !(0 <= temp < |s.list|) then (s, ErrNoMemory)
      else
        var entry := StepEntry(cpu, m, s.list[temp], address, resumeOnce, numSteps);
        var (planted, saved, err) := Enable(s.(list := s.list[temp := entry]), entry, true);
        (planted.(list := planted.list[temp := saved]), err)
  }

  /** Disables the breakpoint under the program counter and stops the thread after its next instruction. */
  function ModifyBreaksForStep(cpu: Cpu, m: Machine, resumeOnce: bool, numSteps: int): (Machine, Error) {
    var (disabled, err) := DisableAt(m.s, m.pc, TEMP_BREAKS);
    if err != ErrNone then (m.(s := disabled), err)
    else
      var (planted, err) := PlantStop(cpu, m, disabled, cpu.next(m.pc), resumeOnce, numSteps);
      (m.(s := planted), err)
  }

  function StepRange(cpu: Cpu, m: Machine, resumeOnce: bool, numSteps: int): (Machine, Error) {
    var (stepping, err) := ModifyBreaksForStep(cpu, m, resumeOnce, numSteps);
    if err != ErrNone then (stepping, err) else (Resumed(stepping), ErrNone)
  }

  /** Some user breakpoint, of any scope, has this address. */
  predicate AnyUserAt(list: seq<BreakEntry>, address: Address) {
    exists i :: 0 <= i < |list| && list[i].breakId >= TEMP_BREAKS && list[i].address == address
  }

  /** Resumes the thread; off a breakpoint it takes one hidden step first. */
  function ResumeThread(cpu: Cpu, m: Machine): (Machine, Error) {
    if AnyUserAt(m.s.list, m.pc) then StepRange(cpu, m, true, 1) else (Resumed(m), ErrNone)
  }

  /** The first entry from index i on that the thread has hit, or -1. */
  function HitEntry(m: Machine, i: nat): int
    decreases |m.s.list| - i
  {
    if i >= |m.s.list| then -1
    else if InScope(m.s.list[i], m.threadId, m.processId) && m.s.list[i].address == m.pc then i
    else HitEntry(m, i + 1)
  }

  function KindOf(entry: BreakEntry): StopKind {
    if entry.threadSpecific then ThreadBreak else ProcessBreak
  }

  /** After a temporary breakpoint with this many steps left is gone. */
  function AfterTemp(cpu: Cpu, m: Machine, kind: StopKind, resumeOnce: bool, left: int): Machine {
    if left != 0 then
      var (stepping, err) := StepRange(cpu, m, resumeOnce, left);
      if err != ErrNone then Notified(stepping, kind) else stepping
    else if resumeOnce then ResumeThread(cpu, m).0
    else Notified(m, kind)
  }

  /** The exception handler, entered when the thread executes a breakpoint instruction. */
  function HandleBreak(cpu: Cpu, m: Machine): Machine {
    var hit := HitEntry(m, 0);
    if !(0 <= hit < |m.s.list|) then Notified(Suspended(m), Exception)
    else
      var entry := m.s.list[hit];
      var enabled := if m.threadId in m.s.threads then EnableDisabled(m.s, m.threadId, m.processId, TEMP_BREAKS) else m.s;
      if entry.breakId < TEMP_BREAKS then
        AfterTemp(cpu, Suspended(m).(s := ClearBreak(enabled, entry.breakId, false).0),
                  KindOf(entry), entry.resumeOnce, entry.numSteps - 1)
      else Notified(Suspended(m).(s := enabled), KindOf(entry))
  }

  // ---------------------------------------------------------------- the target thread

  /** The instruction at the program counter is the breakpoint instruction of its instruction set. */
  predicate BreakUnderPc(cpu: Cpu, m: Machine) {
    var mode := ModeAt(cpu, m.pc);
    Mapped(m.s.raw, m.pc, BreakSize(mode)) && Peek(m.s.raw, m.pc, BreakSize(mode)) == BreakBytes(mode)
  }

  /** One instruction, or one breakpoint exception. */
  function Quantum(cpu: Cpu, m: Machine): Machine {
    if BreakUnderPc(cpu, m) then HandleBreak(cpu, m) else m.(pc := cpu.next(m.pc))
  }

  /** Runs the thread for a number of quanta, or until it is suspended. */
  function RunFor(cpu: Cpu, m: Machine, quanta: nat): Machine
    decreases quanta
  {
    if quanta == 0 || m.suspends > 0 then m else RunFor(cpu, Quantum(cpu, m), quanta - 1)
  }
}
