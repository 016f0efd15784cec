/** The driver's channel and breakpoint manager as they are written: fields changed in place by loops.
    Every method is proved to do what the functions of Breakpoints, MemoryView and Stepping say, and
    the runs, views and steps proved there are about those functions. */
module DebugChannel {
  import opened Wrappers
  import opened CodeMemory
  import opened Breakpoints
  import opened Stepping
  import MemoryView

  class Channel {
    const cpu: Cpu
    const threadId: nat
    const processId: nat
    var list: seq<BreakEntry>
    var nextId: int
    var raw: Memory
    var plants: Plants
    ghost var base: Memory
    var threads: Threads
    var pc: Address
    var suspends: nat
    var events: seq<StopEvent>

    /** The breakpoint manager's state. */
    ghost function Now(): State
      reads this
    {
      State(list, nextId, raw, plants, base, threads)
    }

    ghost function NowMachine(): Machine
      reads this
    {
      Machine(Now(), threadId, processId, pc, suspends, events)
    }

    constructor (cpu: Cpu, program: Memory, threads: Threads, threadId: nat, processId: nat, pc: Address)
      ensures NowMachine() == Machine(Fresh(program, threads), threadId, processId, pc, 0, [])
      ensures this.cpu == cpu
    {
      this.cpu := cpu;
      this.threadId := threadId;
      this.processId := processId;
      this.raw := program;
      this.plants := map[];
      this.base := program;
      this.threads := threads;
      this.pc := pc;
      this.suspends := 0;
      this.events := [];
      list := [];
      nextId := TEMP_BREAKS;
      new;
      for i := 0 to TEMP_BREAKS
        invariant list == seq(i, k => NewEntry(k, 0, false, 0, Arm))
        invariant NowMachine() == Machine(Fresh(program, threads), threadId, processId, pc, 0, []).(s := Fresh(program, threads).(list := list))
        modifies `list
      {
        list := list + [NewEntry(i, 0, false, 0, Arm)];
      }
    }

    // ------------------------------------------------------------ kernel contract

    method PatchCode(address: Address, mode: Mode)
      requires Mapped(raw, address, BreakSize(mode))
      modifies `raw, `plants
      ensures Now() == ModifyCode(old(Now()), address, mode)
    {
      if address !in plants {
        plants := plants[address := Plant(mode, Peek(raw, address, BreakSize(mode)))];
      }
      raw := Poke(raw, address, BreakBytes(mode));
    }

    method UnpatchCode(address: Address) returns (err: Error)
      modifies `raw, `plants
      ensures Now() == RestoreCode(old(Now()), address)
      ensures err == if CanRestore(old(Now()), address) then ErrNone else ErrNotFound
    {
      if address !in plants {
        return ErrNotFound;
      }
      raw := Poke(raw, address, plants[address].original);
      plants := plants - {address};
      err := ErrNone;
    }

    // ------------------------------------------------------------ breakpoint manager

    method EnableBreak(entry: BreakEntry, save: bool) returns (saved: BreakEntry, err: Error)
      modifies `raw, `plants
      ensures (Now(), saved, err) == Enable(old(Now()), entry, save)
    {
      saved := entry;
      if BreakSize(entry.mode) == 0 {
        return saved, ErrNotSupported;
      }
      if HandleId(entry) !in threads {
        return saved, ErrBadHandle;
      }
      if !Mapped(raw, entry.address, BreakSize(entry.mode)) {
        return saved, ErrBadPointer;
      }
      if save {
        saved := saved.(instruction := Peek(raw, entry.address, BreakSize(entry.mode)));
      }
      var alreadySet := false;
      var i := TEMP_BREAKS;
      while i < |list| && !alreadySet
        invariant TEMP_BREAKS <= i
        invariant alreadySet ==> AlreadySet(list, entry.address)
        invariant !alreadySet ==>
          forall k :: TEMP_BREAKS <= k < i && k < |list| ==> list[k].address != entry.address || list[k].disabledForStep
        decreases |list| - i, !alreadySet
      {
        if list[i].address == entry.address && !list[i].disabledForStep {
          alreadySet := true;
        } else {
          i := i + 1;
        }
      }
      if !alreadySet {
        PatchCode(entry.address, entry.mode);
      }
      err := ErrNone;
    }

    method SetBreak(id: nat, threadSpecific: bool, address: Address, mode: Mode) returns (breakId: int, err: Error)
      modifies `list, `nextId, `raw, `plants
      ensures (Now(), err) == Breakpoints.SetBreak(old(Now()), id, threadSpecific, address, mode)
      ensures err == ErrNone ==> |list| > 0 && breakId == list[|list| - 1].breakId == old(nextId)
    {
      breakId := 0;
      if mode == Thumb2EE {
        return breakId, ErrNotSupported;
      }
      if |list| + 1 >= MAX_BREAKS {
        return breakId, ErrOverflow;
      }
      if !Aligned(address, mode) {
        return breakId, ErrArgument;
      }
      var i := TEMP_BREAKS;
      while i < |list|
        invariant TEMP_BREAKS <= i && Now() == old(Now())
        invariant FirstConflict(Now(), id, threadSpecific, address, mode, i) ==
                  FirstConflict(Now(), id, threadSpecific, address, mode, TEMP_BREAKS)
      {
        if BreakSize(mode) == 0 || BreakSize(list[i].mode) == 0 {
          return breakId, ErrNotSupported;
        }
        if Overlap(address, mode, list[i].address, list[i].mode) {
          if list[i].threadSpecific == threadSpecific {
            if id == list[i].id {
              return breakId, ErrAlreadyExists;
            }
          } else {
            var thread, process := if threadSpecific then id else list[i].id, if threadSpecific then list[i].id else id;
            if thread !in threads {
              return breakId, ErrNotFound;
            }
            if threads[thread] == process {
              return breakId, ErrAlreadyExists;
            }
          }
        }
        i := i + 1;
      }
      breakId := nextId;
      nextId := nextId + 1;
      var entry := NewEntry(breakId, id, threadSpecific, address, mode);
      entry, err := EnableBreak(entry, true);
      if err == ErrNone {
        list := list + [entry];
      }
    }

    method ClearBreak(breakId: int, ignoreTerminated: bool) returns (err: Error)
      modifies `list, `raw, `plants
      ensures (Now(), err) == Breakpoints.ClearBreak(old(Now()), breakId, ignoreTerminated)
    {
      var index := Find(list, breakId, 0);
      if !(0 <= index < |list|) {
        return ErrNotFound;
      }
      if HandleId(list[index]) !in threads {
        if !ignoreTerminated {
          return ErrBadHandle;
        }
      } else {
        var needToRestore := true;
        var i := TEMP_BREAKS;
        while i < |list| && needToRestore
          invariant TEMP_BREAKS <= i
          invariant !needToRestore ==> OverlappedByOther(list, index)
          invariant needToRestore ==> forall k :: TEMP_BREAKS <= k < i && k < |list| && k != index ==>
            !Overlap(list[index].address, list[index].mode, list[k].address, list[k].mode)
          decreases |list| - i, needToRestore
        {
          if i != index && Overlap(list[index].address, list[index].mode, list[i].address, list[i].mode) {
            needToRestore := false;
          } else {
            i := i + 1;
          }
        }
        if needToRestore {
          var notFound := UnpatchCode(list[index].address);
        }
      }
      if index < TEMP_BREAKS {
        list := list[index := Cleared(list[index])];
      } else {
        list := list[..index] + list[index + 1..];
      }
      err := ErrNone;
    }

    method RemoveThreadBreaks(dead: nat)
      modifies `list, `raw, `plants
      ensures Now() == Breakpoints.RemoveThreadBreaks(old(Now()), dead, |old(list)|)
    {
      var i := |list|;
      while i > 0
        invariant 0 <= i
        invariant Breakpoints.RemoveThreadBreaks(Now(), dead, i) ==
                  Breakpoints.RemoveThreadBreaks(old(Now()), dead, |old(list)|)
      {
        if i > |list| {
          return;
        }
        if list[i - 1].address != 0 && HandleId(list[i - 1]) == dead {
          var err := ClearBreak(list[i - 1].breakId, false);
          if err != ErrNone {
            return;
          }
        }
        i := i - 1;
      }
    }

    method ClearAll()
      modifies `list, `raw, `plants
      ensures Now() == Breakpoints.ClearAll(old(Now()))
    {
      var i := 0;
      while i < |list|
        invariant 0 <= i && list == old(list)
        invariant RestoreFrom(Now(), i) == RestoreFrom(old(Now()), 0)
      {
        if list[i].address != 0 && HandleId(list[i]) in threads {
          var err := UnpatchCode(list[i].address);
        }
        i := i + 1;
      }
      list := [];
    }

    method DisableBreakAt(address: Address) returns (err: Error)
      modifies `list, `raw, `plants
      ensures (Now(), err) == DisableAt(old(Now()), address, TEMP_BREAKS)
    {
      err := ErrNone;
      var i := TEMP_BREAKS;
      while i < |list|
        invariant TEMP_BREAKS <= i && err == ErrNone
        invariant DisableAt(Now(), address, i) == DisableAt(old(Now()), address, TEMP_BREAKS)
        invariant threads == old(threads)
      {
        if list[i].address == address {
          ghost var before := Now();
          var live := HasLiveThread(list[i]);
          list := list[i := list[i].(disabledForStep := true)];
          if !live {
            return ErrBadHandle;
          }
          err := UnpatchCode(address);
          if err != ErrNone {
            assert Now() == before.(list := list);
            return;
          }
        }
        i := i + 1;
      }
    }

    /** Opens a thread handle for an entry: its own thread, or the process's first. */
    method HasLiveThread(entry: BreakEntry) returns (live: bool)
      ensures live == HandleLive(Now(), entry)
    {
      live := if entry.threadSpecific then entry.id in threads else exists t | t in threads :: threads[t] == entry.id;
    }

    method EnableDisabledBreaks() returns (err: Error)
      modifies `list, `raw, `plants
      ensures Now() == if threadId in old(threads) then EnableDisabled(old(Now()), threadId, processId, TEMP_BREAKS) else old(Now())
    {
      if threadId !in threads {
        return ErrNotFound;
      }
      var i := TEMP_BREAKS;
      while i < |list|
        invariant TEMP_BREAKS <= i
        invariant EnableDisabled(Now(), threadId, processId, i) == EnableDisabled(old(Now()), threadId, processId, TEMP_BREAKS)
      {
        if list[i].disabledForStep && InScope(list[i], threadId, processId) {
          ghost var before := Now();
          var same;
          same, err := EnableBreak(list[i], false);
          if err != ErrNone {
            assert Now() == before;
            list := list[i := list[i].(disabledForStep := false)];
            return;
          }
        }
        i := i + 1;
      }
      err := ErrNone;
    }

    // ------------------------------------------------------------ memory access

    method ReadMemory(address: Address, length: nat) returns (err: Error, data: seq<Byte>)
      ensures (err, data) == MemoryView.ReadMemory(Now(), address, length)
    {
      if !Mapped(raw, address, length) {
        return ErrBadPointer, [];
      }
      data := Peek(raw, address, length);
      var i := 0;
      while i < |list|
        invariant 0 <= i && |data| == length
        invariant MemoryView.Overlay(list, address, data, i) == MemoryView.ReadMemory(Now(), address, length)
      {
        if list[i].breakId >= TEMP_BREAKS && MemoryView.InBlock(list[i], address, length) {
          if !Supported(list[i].mode) {
            return ErrNotSupported, data;
          }
          data := MemoryView.Splice(data, list[i].address - address, list[i].instruction);
        }
        i := i + 1;
      }
      err := ErrNone;
    }

    method WriteMemory(address: Address, data: seq<Byte>) returns (err: Error)
      modifies `list, `raw, `base
      ensures (Now(), err) == MemoryView.WriteMemory(old(Now()), address, data)
    {
      if !Mapped(raw, address, |data|) {
        return ErrBadPointer;
      }
      raw := Poke(raw, address, data);
      base := MemoryView.PokeFree(base, plants, address, data);
      var i := 0;
      while i < |list|
        invariant 0 <= i
        invariant MemoryView.Replant(Now(), address, data, i) == MemoryView.WriteMemory(old(Now()), address, data)
      {
        if list[i].breakId >= TEMP_BREAKS && MemoryView.InBlock(list[i], address, |data|) {
          if !Supported(list[i].mode) {
            return ErrNotSupported;
          }
          var offset := list[i].address - address;
          if offset + BreakSize(list[i].mode) <= |data| {
            list := list[i := list[i].(instruction := data[offset..offset + BreakSize(list[i].mode)])];
          } else {
            assert list == list[i := list[i].(instruction := list[i].instruction)];
          }
          raw := Poke(raw, list[i].address, BreakBytes(list[i].mode));
        }
        i := i + 1;
      }
      err := ErrNone;
    }

    // ------------------------------------------------------------ stepping

    /** The machine m at the start of the step only says which thread is stepping. */
    method PlantNext(ghost m: Machine, address: Address, resumeOnce: bool, numSteps: int) returns (err: Error)
      requires m.threadId == threadId && m.processId == processId
      modifies `list, `raw, `plants
      ensures (Now(), err) == PlantStop(cpu, m, old(Now()), address, resumeOnce, numSteps)
    {
      var i := 0;
      while i < |list|
        invariant 0 <= i && Now() == old(Now())
        invariant UserStop(m, list, address, i) == UserStop(m, list, address, 0)
      {
        if list[i].breakId >= TEMP_BREAKS && list[i].address == address && InScope(list[i], threadId, processId) {
          list := list[i := list[i].(numSteps := 0)];
          return ErrNone;
        }
        i := i + 1;
      }
      i := 0;
      while i < |list|
        invariant 0 <= i && Now() == old(Now())
        invariant FreeTemp(list, i) == FreeTemp(list, 0)
      {
        if list[i].breakId < TEMP_BREAKS && list[i].address == 0 {
          list := list[i := list[i].(id := threadId, threadSpecific := true, address := address,
            mode := ModeAt(cpu, address), resumeOnce := resumeOnce, numSteps := numSteps)];
          var saved;
          saved, err := EnableBreak(list[i], true);
          list := list[i := saved];
          return;
        }
        i := i + 1;
      }
      err := ErrNoMemory;
    }

    method Resume()
      modifies `suspends
      ensures NowMachine() == Resumed(old(NowMachine()))
    {
      if suspends > 0 {
        suspends := suspends - 1;
      }
    }

    method Notify(kind: StopKind)
      modifies `events
      ensures NowMachine() == Notified(old(NowMachine()), kind)
    {
      events := events + [StopEvent(kind, pc)];
    }

    method DoStepRange(resumeOnce: bool, numSteps: int) returns (err: Error)
      modifies `list, `raw, `plants, `suspends
      ensures (NowMachine(), err) == StepRange(cpu, old(NowMachine()), resumeOnce, numSteps)
    {
      ghost var m := NowMachine();
      err := DisableBreakAt(pc);
      if err != ErrNone {
        return;
      }
      err := PlantNext(m, cpu.next(pc), resumeOnce, numSteps);
      if err == ErrNone {
        Resume();
      }
    }

    method DoResumeThread() returns (err: Error)
      modifies `list, `raw, `plants, `suspends
      ensures (NowMachine(), err) == ResumeThread(cpu, old(NowMachine()))
    {
      var i := 0;
      while i < |list|
        invariant 0 <= i && NowMachine() == old(NowMachine())
        invariant forall k :: 0 <= k < i && k < |list| ==> list[k].breakId < TEMP_BREAKS || list[k].address != pc
      {
        if list[i].breakId >= TEMP_BREAKS && list[i].address == pc {
          err := DoStepRange(true, 1);
          return;
        }
        i := i + 1;
      }
      Resume();
      err := ErrNone;
    }

    /** The exception handler, once the instruction under the program counter is known to be a breakpoint. */
    method HandleBreakpoint()
      modifies `list, `raw, `plants, `suspends, `events
      ensures NowMachine() == HandleBreak(cpu, old(NowMachine()))
    {
      ghost var m := NowMachine();
      suspends := suspends + 1;
      var i := 0;
      while i < |list|
        invariant 0 <= i && NowMachine() == Suspended(m)
        invariant HitEntry(m, i) == HitEntry(m, 0)
      {
        if InScope(list[i], threadId, processId) && list[i].address == pc {
          var entry := list[i];
          var err := EnableDisabledBreaks();
          if entry.breakId < TEMP_BREAKS {
            err := ClearBreak(entry.breakId, false);
            AfterTempBreak(KindOf(entry), entry.resumeOnce, entry.numSteps - 1);
          } else {
            Notify(KindOf(entry));
          }
          return;
        }
        i := i + 1;
      }
      Notify(Exception);
    }

    method AfterTempBreak(kind: StopKind, resumeOnce: bool, left: int)
      modifies `list, `raw, `plants, `suspends, `events
      ensures NowMachine() == AfterTemp(cpu, old(NowMachine()), kind, resumeOnce, left)
    {
      if left != 0 {
        var err := DoStepRange(resumeOnce, left);
        if err != ErrNone {
          Notify(kind);
        }
      } else if resumeOnce {
        var err := DoResumeThread();
      } else {
        Notify(kind);
      }
    }
  }
}
