/** The results about stepping: what a request for n steps and a resume lead to, and when they give the
    code back as it was. */
module StepTheorems {
  import opened Wrappers
  import opened CodeMemory
  import opened Breakpoints
  import opened BreakpointRuns
  import opened MemoryView
  import opened MemoryRuns
  import opened Stepping
  import opened StepRuns

  // ---------------------------------------------------------------- hitting a breakpoint outside a step

  lemma StandingEnableable(cpu: Cpu, m: Machine)
    ensures Standing(cpu, m) ==> Enableable(cpu, m.s)
  {
    if Standing(cpu, m) {
      StandingPatched(cpu, m);
      hide Standing;
      hide Restorable;
      forall i | m.s.IsUser(i) ensures Restorable(cpu, m.s, m.s.list[i]) {
        RestorableUser(cpu, m, m.s, i);
      }
    }
  }

  /** With no step going on there is nothing to plant again. */
  lemma NothingWaits(cpu: Cpu, m: Machine)
    ensures Standing(cpu, m) ==> EnableDisabled(m.s, m.threadId, m.processId, TEMP_BREAKS) == m.s
  {
    hide EnableDisabled;
    hide Enableable;
    hide Places;
    if Standing(cpu, m) {
      StandingPatched(cpu, m);
      StandingPlaces(cpu, m);
      StandingEnableable(cpu, m);
      EnableDisabledPlants(cpu, m.s, m.threadId, m.processId, TEMP_BREAKS);
      var e := EnableDisabled(m.s, m.threadId, m.processId, TEMP_BREAKS);
      forall p | p in e.plants.Keys ensures p in m.s.plants.Keys {
        if WaitsAt(m.s, m.threadId, m.processId, p) {
          var i :| m.s.IsUser(i) && m.s.list[i].address == p && Waits(m.s.list[i], m.threadId, m.processId);
          StandingUser(cpu, m, i);
        }
      }
      hide Standing;
      hide WaitsAt;
      hide Apart;
      PlacesDetermine(cpu, m.s.base, m.s.plants, e.plants);
      PatchedDetermines(e.raw, m.s.raw, m.s.base, m.s.plants);
    }
  }

  /** Only the thread's own breakpoints are found. */
  lemma NoHit(m: Machine)
    ensures TempsFree(m.s) && m.pc != 0 && !StopsAt(m, m.pc) ==> HitEntry(m, 0) == -1
  {
    if TempsFree(m.s) && m.pc != 0 && !StopsAt(m, m.pc) {
      forall k | 0 <= k < |m.s.list| && m.s.list[k].address == m.pc
        ensures !InScope(m.s.list[k], m.threadId, m.processId)
      {
        assert k < TEMP_BREAKS || m.s.IsUser(k);
      }
      HitMeaning(m, 0);
    }
  }

  /** A thread that runs into a breakpoint instruction is suspended there, and nothing else happens but the report:
      a breakpoint of its process, one of its own, or, where it has none, an exception. */
  lemma HitIsReported(cpu: Cpu, m: Machine)
    requires Standing(cpu, m) && m.suspends == 0 && m.pc != 0 && BreakUnderPc(cpu, m)
    ensures Quantum(cpu, m) == m.(suspends := 1, events := m.events +
      [StopEvent(if StopsForProcess(m, m.pc) then ProcessBreak else if StopsAt(m, m.pc) then ThreadBreak else Exception, m.pc)])
  {
    StandingPatched(cpu, m);
    assert m.threadId in m.s.threads;
    NothingWaits(cpu, m);
    hide Standing;
    hide EnableDisabled;
    hide BreakUnderPc;
    hide Ordered;
    hide Patched;
    if StopsAt(m, m.pc) {
      HitsUser(m, m.s, m.pc);
      assert m.(s := m.s, pc := m.pc, suspends := 0) == m;
      HandleBreakAt(cpu, m, HitEntry(m, 0), m.s);
    } else {
      NoHit(m);
    }
  }

  // ---------------------------------------------------------------- the path of a step request

  /** Every instruction stepped over on the way to the stop can be stepped from. */
  ghost predicate Path(cpu: Cpu, m: Machine, pc: Address, n: nat)
    decreases n
  {
    n == 0 || (CanStep(cpu, m, pc) && (StopsAt(m, cpu.next(pc)) || Path(cpu, m, cpu.next(pc), n - 1)))
  }

  /** The n-th successor, or the first earlier one where a user breakpoint stops the thread. */
  ghost function StopPc(cpu: Cpu, m: Machine, pc: Address, n: nat): Address
    decreases n
  {
    if n == 0 then pc
    else if StopsAt(m, cpu.next(pc)) then cpu.next(pc)
    else StopPc(cpu, m, cpu.next(pc), n - 1)
  }

  /** The addresses stepped off on the way to the stop. */
  ghost function Departed(cpu: Cpu, m: Machine, pc: Address, n: nat): set<int>
    decreases n
  {
    if n == 0 then {}
    else if StopsAt(m, cpu.next(pc)) then {pc as int}
    else {pc as int} + Departed(cpu, m, cpu.next(pc), n - 1)
  }

  lemma {:induction false} PathStays(cpu: Cpu, m: Machine, after: Machine, pc: Address, n: nat)
    ensures SameUsers(m, after) ==> (Path(cpu, m, pc, n) <==> Path(cpu, after, pc, n))
    ensures SameUsers(m, after) ==> StopPc(cpu, after, pc, n) == StopPc(cpu, m, pc, n)
    ensures SameUsers(m, after) ==> Departed(cpu, after, pc, n) == Departed(cpu, m, pc, n)
    decreases n
  {
    hide StopsAt;
    hide NoneForeign;
    hide Ordinary;
    if SameUsers(m, after) {
      if n == 0 {
      } else {
        SameStops(m, after, pc);
        SameStops(m, after, cpu.next(pc));
        PathStays(cpu, m, after, cpu.next(pc), n - 1);
      }
    }
  }

  lemma {:induction false} DepartedIsOrdinary(cpu: Cpu, m: Machine, pc: Address, n: nat, a: int)
    requires Path(cpu, m, pc, n) && a in Departed(cpu, m, pc, n)
    ensures Ordinary(cpu, m.s.base, a)
    decreases n
  {
    hide Ordinary;
    hide StopsAt;
    if a == pc {
    } else {
      DepartedIsOrdinary(cpu, m, cpu.next(pc), n - 1, a);
    }
  }

  lemma SameUsersTwice(m: Machine, mid: Machine, after: Machine)
    ensures SameUsers(m, mid) && SameUsers(mid, after) ==> SameUsers(m, after)
  {
  }

  // ---------------------------------------------------------------- one step

  /** How many quanta a step takes: the instruction and the exception, or the exception alone. */
  function StepQuanta(cpu: Cpu, pc: Address): nat {
    if cpu.next(pc) == pc then 1 else 2
  }

  /** A step's quanta after it has started, the thread has executed one instruction, unless that targets
      itself, and the handler has run. */
  lemma OneStep(cpu: Cpu, m: Machine, resumeOnce: bool, numSteps: int, quanta: nat)
    returns (after: Machine)
    requires Standing(cpu, m) && CanStep(cpu, m, m.pc) && m.suspends == 1 && quanta >= StepQuanta(cpu, m.pc)
    ensures StepRange(cpu, m, resumeOnce, numSteps).1 == ErrNone
    ensures StoppedAtNext(cpu, m, after)
    ensures RunFor(cpu, StepRange(cpu, m, resumeOnce, numSteps).0, quanta) ==
      if StopsAt(m, cpu.next(m.pc)) then Notified(after, Reason(m, cpu.next(m.pc)))
      else RunFor(cpu, AfterTemp(cpu, after, ThreadBreak, resumeOnce, numSteps - 1), quanta - StepQuanta(cpu, m.pc))
  {
    hide Standing;
    hide CanStep;
    hide Ready;
    hide StopsAt;
    hide HandleBreak;
    hide AfterTemp;
    hide StepRange;
    hide BreakUnderPc;
    hide StoppedAtNext;
    hide Reason;
    var s := StepStarts(cpu, m, resumeOnce, numSteps);
    ReadyHits(cpu, m, s, resumeOnce, numSteps);
    if StopsAt(m, cpu.next(m.pc)) {
      after := UserHitStops(cpu, m, s, resumeOnce, numSteps);
    } else {
      after := TempHitClears(cpu, m, s, resumeOnce, numSteps);
    }
    if cpu.next(m.pc) != m.pc {
      ReadyExecutes(cpu, m, s, resumeOnce, numSteps);
    }
    Quanta(cpu, m, s, quanta);
    StoppedSuspends(cpu, m, after);
  }

  lemma StoppedSuspends(cpu: Cpu, m: Machine, after: Machine)
    ensures StoppedAtNext(cpu, m, after) ==>
      after.suspends == 1 && after.pc == cpu.next(m.pc) && after.events == m.events
  {
    hide Patched;
  }

  lemma SameBreak(cpu: Cpu, m: Machine, other: Machine)
    ensures other.s.raw == m.s.raw && other.pc == m.pc ==> (BreakUnderPc(cpu, m) <==> BreakUnderPc(cpu, other))
  {
  }

  lemma Quanta(cpu: Cpu, m: Machine, s: State, quanta: nat)
    requires m.suspends == 1 && quanta >= StepQuanta(cpu, m.pc)
    requires cpu.next(m.pc) != m.pc ==> !BreakUnderPc(cpu, m.(s := s))
    requires BreakUnderPc(cpu, m.(s := s, pc := cpu.next(m.pc)))
    ensures RunFor(cpu, Resumed(m.(s := s)), quanta)
      == RunFor(cpu, HandleBreak(cpu, m.(s := s, pc := cpu.next(m.pc), suspends := 0)), quanta - StepQuanta(cpu, m.pc))
  {
    hide HandleBreak;
    hide BreakUnderPc;
    var started, hit := Resumed(m.(s := s)), m.(s := s, pc := cpu.next(m.pc), suspends := 0);
    SameBreak(cpu, m.(s := s), started);
    SameBreak(cpu, m.(s := s, pc := cpu.next(m.pc)), hit);
    if cpu.next(m.pc) == m.pc {
      assert started == hit;
    } else {
      assert Quantum(cpu, started) == hit;
      assert RunFor(cpu, started, quanta) == RunFor(cpu, hit, quanta - 1);
    }
  }

  // ---------------------------------------------------------------- n steps

  /** The address is planted at the end: it was before, and is not one of another scope that was stepped
      off; or the thread has stopped at it. */
  ghost predicate Remains(m: Machine, a: int, departed: set<int>, stop: int) {
    (a in m.s.plants && (NoneForeign(m, a) || a !in departed)) || (a == stop && UserAt(m.s, a))
  }

  lemma ArrivedRemains(cpu: Cpu, m: Machine, a: int)
    ensures a in Arrived(cpu, m) <==> Remains(m, a, {m.pc as int}, cpu.next(m.pc))
  {
    hide NoneForeign;
    hide UserAt;
  }

  lemma RemainsTwice(cpu: Cpu, m: Machine, after: Machine, departed: set<int>, stop: int, a: int)
    requires Standing(cpu, m) && StoppedAtNext(cpu, m, after) && cpu.next(m.pc) as int in departed
    ensures Remains(after, a, departed, stop) <==> Remains(m, a, {m.pc as int} + departed, stop)
  {
    hide Standing;
    hide NoneForeign;
    hide UserAt;
    hide Arrived;
    StoppedKeys(cpu, m, after);
    ArrivedRemains(cpu, m, a);
    SameUserAt(m, after, a);
    SameStops(m, after, a);
    hide SameUsers;
    if a == cpu.next(m.pc) && UserAt(m.s, a) && NoneForeign(m, a) {
      AtNext(m, a);
      OwnIsPlanted(cpu, m, a);
    }
  }

  lemma StoppedKeys(cpu: Cpu, m: Machine, after: Machine)
    ensures StoppedAtNext(cpu, m, after) ==> SameUsers(m, after) && after.s.plants.Keys == Arrived(cpu, m)
  {
    hide Patched;
  }

  lemma AtNext(m: Machine, a: int)
    ensures UserAt(m.s, a) && NoneForeign(m, a) ==> StopsAt(m, a)
  {
  }

  /** A request for n steps ends with the thread suspended once, at the n-th successor or the first
      earlier one holding a user breakpoint of its scope; exactly one event has been raised, no temporary
      breakpoint is left, and what is planted is what was, short of the breakpoints of other scopes that
      were stepped off. */
  lemma {:induction false} StepsStopWhereAsked(cpu: Cpu, m: Machine, n: nat, quanta: nat)
    returns (final: Machine)
    requires Standing(cpu, m) && m.suspends == 1
    requires n >= 1 && Path(cpu, m, m.pc, n) && quanta >= 2 * n
    ensures StepRange(cpu, m, false, n).1 == ErrNone
    ensures final == RunFor(cpu, StepRange(cpu, m, false, n).0, quanta)
    ensures final.suspends == 1 && final.pc == StopPc(cpu, m, m.pc, n)
    ensures final.events ==
      m.events + [StopEvent(if StopsForProcess(m, final.pc) then ProcessBreak else ThreadBreak, final.pc)]
    ensures Standing(cpu, final) && SameUsers(m, final)
    ensures forall a :: a in final.s.plants <==> Remains(m, a, Departed(cpu, m, m.pc, n), final.pc)
    decreases n
  {
    hide Standing;
    hide StopsAt;
    hide NoneForeign;
    hide SameUsers;
    hide CanStep;
    hide StepRange;
    hide StoppedAtNext;
    hide Remains;
    hide StopsForProcess;
    var after := OneStep(cpu, m, false, n, quanta);
    StoppedStands(cpu, m, after);
    StoppedSuspends(cpu, m, after);
    StoppedKeys(cpu, m, after);
    if StopsAt(m, cpu.next(m.pc)) || n == 1 {
      NotStoppedReason(m, cpu.next(m.pc));
      final := Notified(after, Reason(m, cpu.next(m.pc)));
      StandingIgnoresEvents(cpu, after, final);
      SameUsersIgnoresEvents(m, after, final);
      assert Departed(cpu, m, m.pc, n) == {m.pc as int};
      forall a ensures a in final.s.plants <==> Remains(m, a, {m.pc as int}, final.pc) {
        ArrivedRemains(cpu, m, a);
      }
    } else {
      PathStays(cpu, m, after, cpu.next(m.pc), n - 1);
      final := StepsStopWhereAsked(cpu, after, n - 1, quanta - StepQuanta(cpu, m.pc));
      SameUsersTwice(m, after, final);
      SameReason(m, after, final.pc);
      assert cpu.next(m.pc) as int in Departed(cpu, m, cpu.next(m.pc), n - 1);
      forall a ensures a in final.s.plants <==> Remains(m, a, Departed(cpu, m, m.pc, n), final.pc) {
        RemainsTwice(cpu, m, after, Departed(cpu, m, cpu.next(m.pc), n - 1), final.pc, a);
      }
    }
  }

  lemma NotStoppedReason(m: Machine, address: int)
    ensures !StopsAt(m, address) ==> Reason(m, address) == ThreadBreak
  {
  }

  lemma SameUsersIgnoresEvents(m: Machine, after: Machine, final: Machine)
    requires SameUsers(m, after) && final == after.(suspends := final.suspends, events := final.events)
    ensures SameUsers(m, final)
  {
  }

  /** Where ordinary code was planted and is no more, memory has changed. */
  lemma LostChangesCode(cpu: Cpu, m: Machine, after: Machine, a: Address)
    requires Standing(cpu, m) && Standing(cpu, after) && after.s.base == m.s.base
    requires Ordinary(cpu, m.s.base, a) && a as int in m.s.plants && a as int !in after.s.plants
    ensures after.s.raw != m.s.raw
  {
    hide Standing;
    hide Ordinary;
    hide BreakUnderPc;
    hide Places;
    hide Patched;
    StandingPatched(cpu, m);
    StandingPatched(cpu, after);
    StandingPlaces(cpu, m);
    StandingPlaces(cpu, after);
    var at := m.(pc := a);
    PlantedIsHit(cpu, at, m.s);
    OrdinaryExecutes(cpu, at, after.s);
    if after.s.raw == m.s.raw {
      SameBreak(cpu, at.(s := m.s), at.(s := after.s));
    }
  }

  lemma SettledUser(cpu: Cpu, m: Machine, a: int)
    ensures Settled(cpu, m) ==> (UserAt(m.s, a) <==> a in m.s.plants)
  {
    hide Patched;
    hide ListOk;
    hide EqualOrDisjoint;
  }

  lemma ForeignIsUser(m: Machine, a: int)
    ensures !NoneForeign(m, a) ==> UserAt(m.s, a)
  {
  }

  lemma RemainsIffClear(cpu: Cpu, m: Machine, a: int, departed: set<int>, stop: int)
    ensures Settled(cpu, m) ==>
      ((Remains(m, a, departed, stop) <==> a in m.s.plants) <==> (a in departed && a != stop ==> NoneForeign(m, a)))
  {
    if Settled(cpu, m) {
      SettledUser(cpu, m, a);
      hide Settled;
      if !NoneForeign(m, a) {
        ForeignIsUser(m, a);
      }
      hide NoneForeign;
      hide UserAt;
    }
  }

  /** No breakpoint of another scope was stepped off for good. */
  ghost predicate NoneLost(cpu: Cpu, m: Machine, n: nat) {
    forall a :: a in Departed(cpu, m, m.pc, n) && a != StopPc(cpu, m, m.pc, n) ==> NoneForeign(m, a)
  }

  /** A step disables every breakpoint at the program counter but plants only the thread's own again: n steps
      give the code back as it was exactly when no breakpoint of another scope stands under an instruction
      stepped over, unless the thread stops on it. */
  lemma StepsKeepCodeIff(cpu: Cpu, m: Machine, n: nat, quanta: nat)
    returns (final: Machine)
    requires Settled(cpu, m) && m.suspends == 1
    requires n >= 1 && Path(cpu, m, m.pc, n) && quanta >= 2 * n
    ensures final == RunFor(cpu, StepRange(cpu, m, false, n).0, quanta)
    ensures final.s.raw == m.s.raw <==> NoneLost(cpu, m, n)
    ensures NoneLost(cpu, m, n) ==> Settled(cpu, final) && SameBreakpoints(m, final)
  {
    hide Settled;
    hide Standing;
    hide SameUsers;
    hide Path;
    hide Departed;
    hide StopPc;
    hide StepRange;
    hide NoneForeign;
    hide Remains;
    SettledStands(cpu, m);
    final := StepsStopWhereAsked(cpu, m, n, quanta);
    var departed, stop := Departed(cpu, m, m.pc, n), StopPc(cpu, m, m.pc, n);
    if a :| a in departed && a != stop && !NoneForeign(m, a) {
      RemainsIffClear(cpu, m, a, departed, stop);
      ForeignIsUser(m, a);
      SettledUser(cpu, m, a);
      DepartedIsOrdinary(cpu, m, m.pc, n, a);
      SameBase(m, final);
      LostChangesCode(cpu, m, final, a);
    } else {
      forall a ensures a in final.s.plants <==> a in m.s.plants {
        RemainsIffClear(cpu, m, a, departed, stop);
      }
      assert final.s.plants.Keys == m.s.plants.Keys;
      SettledAgain(cpu, m, final);
    }
  }

  lemma SameBase(m: Machine, after: Machine)
    ensures SameUsers(m, after) ==> after.s.base == m.s.base
  {
  }

  /** One step gives the code back exactly when no breakpoint of another scope is underneath, or the
      instruction targets itself: then the step's own stop plants that breakpoint again. */
  lemma StepKeepsCodeIff(cpu: Cpu, m: Machine, quanta: nat)
    requires Settled(cpu, m) && CanStep(cpu, m, m.pc) && m.suspends == 1 && quanta >= 2
    ensures var final := RunFor(cpu, StepRange(cpu, m, false, 1).0, quanta);
      final.s.raw == m.s.raw <==> NoneForeign(m, m.pc) || cpu.next(m.pc) == m.pc
  {
    hide Settled;
    hide CanStep;
    hide SameBreakpoints;
    hide StepRange;
    hide NoneForeign;
    hide RunFor;
    OneIsPath(cpu, m);
    var final := StepsKeepCodeIff(cpu, m, 1, quanta);
  }

  lemma OneIsPath(cpu: Cpu, m: Machine)
    ensures CanStep(cpu, m, m.pc) ==> Path(cpu, m, m.pc, 1)
    ensures CanStep(cpu, m, m.pc) ==> (NoneLost(cpu, m, 1) <==> NoneForeign(m, m.pc) || cpu.next(m.pc) == m.pc)
  {
    hide CanStep;
    hide StopsAt;
    hide NoneForeign;
    if CanStep(cpu, m, m.pc) {
      assert StopPc(cpu, m, m.pc, 1) == cpu.next(m.pc) && Departed(cpu, m, m.pc, 1) == {m.pc as int};
    }
  }

  // ---------------------------------------------------------------- instructions that target themselves

  /** An instruction that targets itself, with one of the thread's breakpoints on it: the step disables
      that breakpoint and trusts it to stop the thread, so the thread never stops. */
  lemma {:induction false} SelfTargetRunsAway(cpu: Cpu, m: Machine, resumeOnce: bool, n: int, quanta: nat)
    requires Standing(cpu, m) && m.suspends == 1 && Ordinary(cpu, m.s.base, m.pc)
    requires cpu.next(m.pc) == m.pc && StopsAt(m, m.pc)
    ensures var (started, err) := StepRange(cpu, m, resumeOnce, n);
      && err == ErrNone && RunFor(cpu, started, quanta) == started
      && started.suspends == 0 && started.events == m.events && m.pc as int !in started.s.plants
  {
    hide Standing;
    hide Ordinary;
    hide StopsAt;
    hide BreakUnderPc;
    hide DisableAt;
    StandingPatched(cpu, m);
    var d := DisableWorks(cpu, m);
    DisabledPlaces(cpu, m, d);
    OrdinaryExecutes(cpu, m, d);
    UserStopIsStopsAt(m, d, m.pc);
    hide Patched;
    hide UserStop;
    var user := UserStop(m, d.list, m.pc, 0);
    var s := d.(list := d.list[user := d.list[user].(numSteps := 0)]);
    assert StepRange(cpu, m, resumeOnce, n) == (Resumed(m.(s := s)), ErrNone);
    SameBreak(cpu, m.(s := d), Resumed(m.(s := s)));
    LoopsForever(cpu, Resumed(m.(s := s)), quanta);
  }

  lemma {:induction false} LoopsForever(cpu: Cpu, m: Machine, quanta: nat)
    ensures cpu.next(m.pc) == m.pc && !BreakUnderPc(cpu, m) ==> RunFor(cpu, m, quanta) == m
    decreases quanta
  {
    hide BreakUnderPc;
    if cpu.next(m.pc) == m.pc && !BreakUnderPc(cpu, m) {
      if quanta == 0 || m.suspends > 0 {
      } else {
        LoopsForever(cpu, m, quanta - 1);
      }
    }
  }

  /** A step over ordinary code stops the thread exactly when the instruction is not one that targets itself
      with a breakpoint of the thread's own on it. */
  lemma StepStopsIff(cpu: Cpu, m: Machine, quanta: nat)
    requires Standing(cpu, m) && m.suspends == 1 && quanta >= 2
    requires Ordinary(cpu, m.s.base, m.pc) && Ordinary(cpu, m.s.base, cpu.next(m.pc))
    ensures RunFor(cpu, StepRange(cpu, m, false, 1).0, quanta).suspends == 1 <==>
      !(cpu.next(m.pc) == m.pc && StopsAt(m, m.pc))
  {
    hide Standing;
    hide Ordinary;
    hide StopsAt;
    hide StepRange;
    hide RunFor;
    hide SameUsers;
    hide Remains;
    if cpu.next(m.pc) == m.pc && StopsAt(m, m.pc) {
      SelfTargetRunsAway(cpu, m, false, 1, quanta);
    } else {
      OneIsPath(cpu, m);
      var final := StepsStopWhereAsked(cpu, m, 1, quanta);
    }
  }

  // ---------------------------------------------------------------- breakpoints that share an address

  /** The user breakpoints at an address, from index i on. */
  function CountAt(list: seq<BreakEntry>, address: Address, i: nat): nat
    decreases |list| - i
  {
    if i >= |list| then 0
    else (if list[i].address == address then 1 else 0) + CountAt(list, address, i + 1)
  }

  lemma {:induction false} CountSame(list: seq<BreakEntry>, other: seq<BreakEntry>, address: Address, i: nat)
    requires |list| == |other| && forall k :: i <= k < |list| ==> list[k].address == other[k].address
    ensures CountAt(list, address, i) == CountAt(other, address, i)
    decreases |list| - i
  {
    if i >= |list| {
    } else {
      CountSame(list, other, address, i + 1);
    }
  }

  /** Disabling restores the code once: it finds nothing to restore for a second breakpoint of the address. */
  lemma {:induction false} DisableWorksIff(s: State, address: Address, i: nat)
    requires forall k :: i <= k < |s.list| && s.list[k].address == address ==> HandleLive(s, s.list[k])
    ensures var (after, err) := DisableAt(s, address, i);
      && (err == ErrNone <==> CountAt(s.list, address, i) <= if address as int in s.plants then 1 else 0)
      && (err != ErrNone ==> err == ErrNotFound && address as int !in after.plants)
    decreases |s.list| - i
  {
    if i >= |s.list| {
    } else if s.list[i].address == address {
      var marked := Marked(s, i);
      CountSame(s.list, marked.list, address, i + 1);
      if CanRestore(s, address) {
        DisableWorksIff(RestoreCode(marked, address), address, i + 1);
      }
    } else {
      DisableWorksIff(s, address, i + 1);
    }
  }

  /** A thread that stands where breakpoints of two scopes share the address cannot be stepped off it: the
      request is refused, the thread stays suspended, and the code is left without the breakpoint. */
  lemma SharedAddressIsRefused(cpu: Cpu, m: Machine, resumeOnce: bool, numSteps: int)
    requires forall i :: m.s.IsUser(i) && m.s.list[i].address == m.pc ==> HandleLive(m.s, m.s.list[i])
    requires CountAt(m.s.list, m.pc, TEMP_BREAKS) >= 2
    ensures var (after, err) := StepRange(cpu, m, resumeOnce, numSteps);
      && err == ErrNotFound && m.pc as int !in after.s.plants
      && after == m.(s := after.s)
  {
    forall k | TEMP_BREAKS <= k < |m.s.list| && m.s.list[k].address == m.pc ensures HandleLive(m.s, m.s.list[k]) {
      assert m.s.IsUser(k);
    }
    DisableWorksIff(m.s, m.pc, TEMP_BREAKS);
    hide DisableAt;
    hide PlantStop;
  }

  lemma StepsOn(cpu: Cpu, after: Machine, left: int)
    ensures left != 0 && StepRange(cpu, after, false, left).1 == ErrNone ==>
      AfterTemp(cpu, after, ThreadBreak, false, left) == StepRange(cpu, after, false, left).0
  {
    hide StepRange;
  }

  /** The count of a request for no steps is lowered before it is tested: the thread steps on, past every instruction
      it can be stepped off, and stops only where a user breakpoint of its own stands. */
  lemma {:induction false} ZeroStepsStopAtBreakpoint(cpu: Cpu, m: Machine, k: int, n: nat, quanta: nat)
    returns (final: Machine)
    requires Standing(cpu, m) && m.suspends == 1 && k <= 0
    requires n >= 1 && Path(cpu, m, m.pc, n) && StopsAt(m, StopPc(cpu, m, m.pc, n)) && quanta >= 2 * n
    ensures StepRange(cpu, m, false, k).1 == ErrNone
    ensures final == RunFor(cpu, StepRange(cpu, m, false, k).0, quanta)
    ensures final.suspends == 1 && final.pc == StopPc(cpu, m, m.pc, n)
    ensures final.events ==
      m.events + [StopEvent(if StopsForProcess(m, final.pc) then ProcessBreak else ThreadBreak, final.pc)]
    decreases n
  {
    hide Standing;
    hide StopsAt;
    hide SameUsers;
    hide CanStep;
    hide StepRange;
    hide AfterTemp;
    hide StoppedAtNext;
    hide StopsForProcess;
    var after := OneStep(cpu, m, false, k, quanta);
    StoppedStands(cpu, m, after);
    StoppedSuspends(cpu, m, after);
    StoppedKeys(cpu, m, after);
    if StopsAt(m, cpu.next(m.pc)) {
      final := Notified(after, Reason(m, cpu.next(m.pc)));
    } else {
      PathStays(cpu, m, after, cpu.next(m.pc), n - 1);
      SameStops(m, after, StopPc(cpu, m, m.pc, n));
      final := ZeroStepsStopAtBreakpoint(cpu, after, k - 1, n - 1, quanta - StepQuanta(cpu, m.pc));
      StepsOn(cpu, after, k - 1);
      SameReason(m, after, final.pc);
    }
  }

  /** The next n instructions can be stepped off, and no user breakpoint of the thread's own stands at one after. */
  ghost predicate ClearPath(cpu: Cpu, m: Machine, pc: Address, n: nat)
    decreases n
  {
    CanStep(cpu, m, pc) && (n == 0 || (!StopsAt(m, cpu.next(pc)) && ClearPath(cpu, m, cpu.next(pc), n - 1)))
  }

  lemma {:induction false} ClearPathStays(cpu: Cpu, m: Machine, after: Machine, pc: Address, n: nat)
    ensures SameUsers(m, after) && ClearPath(cpu, m, pc, n) ==>
      ClearPath(cpu, after, pc, n) && StopPc(cpu, after, pc, n) == StopPc(cpu, m, pc, n)
    decreases n
  {
    hide StopsAt;
    hide Ordinary;
    if SameUsers(m, after) && ClearPath(cpu, m, pc, n) {
      SameStops(m, after, pc);
      if n == 0 {
      } else {
        SameStops(m, after, cpu.next(pc));
        ClearPathStays(cpu, m, after, cpu.next(pc), n - 1);
      }
    }
  }

  /** The quanta n steps take. */
  function PathQuanta(cpu: Cpu, pc: Address, n: nat): (quanta: nat)
    ensures n <= quanta <= 2 * n
    decreases n
  {
    if n == 0 then 0 else StepQuanta(cpu, pc) + PathQuanta(cpu, cpu.next(pc), n - 1)
  }

  lemma StartedRuns(cpu: Cpu, m: Machine, resumeOnce: bool, k: int)
    requires m.suspends == 1 && StepRange(cpu, m, resumeOnce, k).1 == ErrNone
    ensures var started := StepRange(cpu, m, resumeOnce, k).0;
      RunFor(cpu, started, 0) == started && started.pc == m.pc && started.suspends == 0 && started.events == m.events
  {
    TakesBackOne(cpu, m, resumeOnce, k);
    hide StepRange;
  }

  /** On a path clear of such breakpoints a request for no steps is still running after any number of instructions,
      and has raised no event. */
  lemma {:induction false} ZeroStepsRunOn(cpu: Cpu, m: Machine, k: int, n: nat)
    requires Standing(cpu, m) && m.suspends == 1 && k <= 0 && ClearPath(cpu, m, m.pc, n)
    ensures StepRange(cpu, m, false, k).1 == ErrNone
    ensures var final := RunFor(cpu, StepRange(cpu, m, false, k).0, PathQuanta(cpu, m.pc, n));
      final.pc == StopPc(cpu, m, m.pc, n) && final.suspends == 0 && final.events == m.events
    decreases n
  {
    hide Standing;
    hide StopsAt;
    hide SameUsers;
    hide CanStep;
    hide StepRange;
    hide AfterTemp;
    hide StoppedAtNext;
    hide RunFor;
    var quanta := PathQuanta(cpu, m.pc, n);
    if n == 0 {
      var after := OneStep(cpu, m, false, k, 2);
      StartedRuns(cpu, m, false, k);
    } else {
      var after := OneStep(cpu, m, false, k, quanta);
      StoppedStands(cpu, m, after);
      StoppedSuspends(cpu, m, after);
      StoppedKeys(cpu, m, after);
      ClearPathStays(cpu, m, after, cpu.next(m.pc), n - 1);
      ZeroStepsRunOn(cpu, after, k - 1, n - 1);
      StepsOn(cpu, after, k - 1);
    }
  }

  /** A step that is refused on the way is reported: with more steps to take, or a resume to go on with, a thread that
      stands where two breakpoints share the address stays suspended, and raises the event. */
  lemma RefusedStepIsReported(cpu: Cpu, m: Machine, kind: StopKind, resumeOnce: bool, left: int)
    requires left != 0
    requires forall i :: m.s.IsUser(i) && m.s.list[i].address == m.pc ==> HandleLive(m.s, m.s.list[i])
    requires CountAt(m.s.list, m.pc, TEMP_BREAKS) >= 2
    ensures var after := AfterTemp(cpu, m, kind, resumeOnce, left);
      after == m.(s := after.s, events := m.events + [StopEvent(kind, m.pc)]) && m.pc as int !in after.s.plants
  {
    SharedAddressIsRefused(cpu, m, resumeOnce, left);
    hide StepRange;
  }

  /** The breakpoint's own thread, or every thread of its process, is gone. */
  ghost predicate NoThreadFor(s: State, entry: BreakEntry) {
    if entry.threadSpecific then entry.id !in s.threads else forall t :: t in s.threads ==> s.threads[t] != entry.id
  }

  /** A breakpoint at the address that no thread is left to act through keeps the code from being restored. */
  lemma {:induction false} DeadHandleStops(s: State, address: Address, i: nat, k: nat)
    requires i <= k < |s.list| && s.list[k].address == address && NoThreadFor(s, s.list[k])
    ensures DisableAt(s, address, i).1 == ErrBadHandle || DisableAt(s, address, i).1 == ErrNotFound
    ensures (forall j :: i <= j < k ==> s.list[j].address != address) ==> DisableAt(s, address, i).1 == ErrBadHandle
    decreases |s.list| - i
  {
    if i == k {
    } else if s.list[i].address == address {
      if HandleLive(s, s.list[i]) && CanRestore(s, address) {
        DeadHandleStops(RestoreCode(Marked(s, i), address), address, i + 1, k);
      }
    } else {
      DeadHandleStops(s, address, i + 1, k);
    }
  }

  lemma StepNeedsLiveThread(cpu: Cpu, m: Machine, resumeOnce: bool, numSteps: int, k: nat)
    requires m.s.IsUser(k) && m.s.list[k].address == m.pc && NoThreadFor(m.s, m.s.list[k])
    requires forall j :: TEMP_BREAKS <= j < k ==> m.s.list[j].address != m.pc
    ensures var (after, err) := StepRange(cpu, m, resumeOnce, numSteps);
      err == ErrBadHandle && after == m.(s := after.s)
  {
    DeadHandleStops(m.s, m.pc, TEMP_BREAKS, k);
    hide DisableAt;
    hide PlantStop;
  }

  lemma {:induction false} DisableKeepsSlots(s: State, address: Address, i: nat)
    ensures var list := DisableAt(s, address, i).0.list;
      |list| == |s.list| && forall k :: 0 <= k < |list| ==> list[k] == s.list[k].(disabledForStep := list[k].disabledForStep)
    decreases |s.list| - i
  {
    if i >= |s.list| {
    } else if s.list[i].address == address {
      if HandleLive(s, s.list[i]) && CanRestore(s, address) {
        DisableKeepsSlots(RestoreCode(Marked(s, i), address), address, i + 1);
      }
    } else {
      DisableKeepsSlots(s, address, i + 1);
    }
  }

  lemma {:induction false} NoFreeTemp(list: seq<BreakEntry>, i: nat)
    requires forall k :: i <= k < |list| && list[k].breakId < TEMP_BREAKS ==> list[k].address != 0
    ensures FreeTemp(list, i) == -1
    decreases |list| - i
  {
    if i >= |list| {
    } else {
      NoFreeTemp(list, i + 1);
    }
  }

  /** Without a free temporary slot a step that no breakpoint of the thread's own would end is refused, and the thread
      stays suspended. */
  lemma StepNeedsSlot(cpu: Cpu, m: Machine, resumeOnce: bool, numSteps: int)
    requires DisableAt(m.s, m.pc, TEMP_BREAKS).1 == ErrNone
    requires forall k :: 0 <= k < |m.s.list| ==>
      if m.s.list[k].breakId < TEMP_BREAKS then m.s.list[k].address != 0
      else m.s.list[k].address != cpu.next(m.pc) || !InScope(m.s.list[k], m.threadId, m.processId)
    ensures var (after, err) := StepRange(cpu, m, resumeOnce, numSteps);
      err == ErrNoMemory && after == m.(s := after.s)
  {
    DisableKeepsSlots(m.s, m.pc, TEMP_BREAKS);
    var list := DisableAt(m.s, m.pc, TEMP_BREAKS).0.list;
    hide DisableAt;
    NoFreeTemp(list, 0);
    UserStopMeaning(m, list, cpu.next(m.pc), 0);
    hide UserStop;
    hide FreeTemp;
  }

  /** Planting again stops at the first waiting breakpoint whose thread is gone: its mark is taken off, and it and those
      after it stay unplanted. */
  lemma {:induction false} ReplantingStopsAtDeadThread(s: State, threadId: nat, processId: nat, i: nat, k: nat)
    requires i <= k < |s.list| && HandleId(s.list[k]) !in s.threads
    requires s.list[k].disabledForStep && InScope(s.list[k], threadId, processId)
    requires forall j :: i <= j < k ==> !s.list[j].disabledForStep || !InScope(s.list[j], threadId, processId)
    ensures EnableDisabled(s, threadId, processId, i) == s.(list := s.list[k := s.list[k].(disabledForStep := false)])
    decreases k - i
  {
    if i == k {
    } else {
      ReplantingStopsAtDeadThread(s, threadId, processId, i + 1, k);
    }
  }

  /** A step or a resume that is not refused takes back one suspension, if there is one, and one that is refused none;
      either changes breakpoints and code only, and a resume off no breakpoint not even those. */
  lemma TakesBackOne(cpu: Cpu, m: Machine, resumeOnce: bool, numSteps: int)
    ensures var (after, err) := StepRange(cpu, m, resumeOnce, numSteps);
      after == m.(s := after.s, suspends := m.suspends - if err == ErrNone && m.suspends > 0 then 1 else 0)
    ensures var (after, err) := ResumeThread(cpu, m);
      && after == m.(s := after.s, suspends := m.suspends - if err == ErrNone && m.suspends > 0 then 1 else 0)
      && ((forall i :: 0 <= i < |m.s.list| && m.s.list[i].breakId >= TEMP_BREAKS ==> m.s.list[i].address != m.pc) ==>
            err == ErrNone && after.s == m.s)
  {
    hide DisableAt;
    hide PlantStop;
  }

  // ---------------------------------------------------------------- resuming off a breakpoint

  /** The thread is past its instruction, with code bytes as before and nothing temporary left; it is running
      and nothing was reported, unless a user breakpoint of its own stands there and was. */
  ghost predicate Unseen(cpu: Cpu, m: Machine, final: Machine) {
    && final.pc == cpu.next(m.pc) && final.s.raw == m.s.raw && TempsFree(final.s)
    && (if StopsAt(m, final.pc)
        then final.suspends == 1 && final.events ==
               m.events + [StopEvent(if StopsForProcess(m, final.pc) then ProcessBreak else ThreadBreak, final.pc)]
        else final.suspends == 0 && final.events == m.events)
  }

  lemma NoUserAt(m: Machine, after: Machine, a: Address)
    ensures Ordered(m.s) && SameUsers(m, after) ==> (AnyUserAt(after.s.list, a) <==> UserAt(m.s, a))
  {
    if Ordered(m.s) && SameUsers(m, after) {
      UserIds(m.s, after.s.list);
      if AnyUserAt(after.s.list, a) {
        var i :| 0 <= i < |after.s.list| && after.s.list[i].breakId >= TEMP_BREAKS && after.s.list[i].address == a;
        assert m.s.IsUser(i) && m.s.list[i].address == a;
      }
      if UserAt(m.s, a) {
        var i :| m.s.IsUser(i) && m.s.list[i].address == a;
        assert after.s.list[i].address == a;
      }
    }
  }

  lemma StartsWithStep(cpu: Cpu, m: Machine)
    ensures AnyUserAt(m.s.list, m.pc) ==> ResumeThread(cpu, m) == StepRange(cpu, m, true, 1)
  {
  }

  lemma AfterHiddenStep(cpu: Cpu, after: Machine)
    ensures AfterTemp(cpu, after, ThreadBreak, true, 0) == ResumeThread(cpu, after).0
  {
  }

  /** The hidden step of a resume, up to the point where the thread goes on. */
  lemma HiddenStep(cpu: Cpu, m: Machine, quanta: nat) returns (after: Machine)
    requires Standing(cpu, m) && CanStep(cpu, m, m.pc) && m.suspends == 1 && quanta >= StepQuanta(cpu, m.pc)
    requires UserAt(m.s, m.pc)
    ensures ResumeThread(cpu, m).1 == ErrNone
    ensures StoppedAtNext(cpu, m, after) && Standing(cpu, after) && SameUsers(m, after)
    ensures after.suspends == 1 && after.pc == cpu.next(m.pc) && after.events == m.events
    ensures RunFor(cpu, ResumeThread(cpu, m).0, quanta) ==
      if StopsAt(m, cpu.next(m.pc)) then Notified(after, Reason(m, cpu.next(m.pc)))
      else if UserAt(m.s, cpu.next(m.pc)) then
        RunFor(cpu, StepRange(cpu, after, true, 1).0, quanta - StepQuanta(cpu, m.pc))
      else RunFor(cpu, Resumed(after), quanta - StepQuanta(cpu, m.pc))
  {
    hide Standing;
    hide CanStep;
    hide StopsAt;
    hide UserAt;
    hide AnyUserAt;
    hide StepRange;
    hide AfterTemp;
    hide StoppedAtNext;
    hide RunFor;
    StandingPatched(cpu, m);
    NoUserAt(m, m, m.pc);
    StartsWithStep(cpu, m);
    after := OneStep(cpu, m, true, 1, quanta);
    StoppedStands(cpu, m, after);
    StoppedSuspends(cpu, m, after);
    NoUserAt(m, after, cpu.next(m.pc));
    AfterHiddenStep(cpu, after);
  }

  /** Resuming a thread that sits on a breakpoint of its own takes one hidden step: no event, nothing
      left behind, the suspension gone. Only a user breakpoint at the successor stops it, normally. */
  lemma ResumeIsInvisible(cpu: Cpu, m: Machine, quanta: nat)
    returns (final: Machine)
    requires Settled(cpu, m) && CanStep(cpu, m, m.pc) && m.suspends == 1 && quanta >= 2
    requires AnyUserAt(m.s.list, m.pc) && NoneForeign(m, m.pc) && NoneForeign(m, cpu.next(m.pc))
    ensures ResumeThread(cpu, m).1 == ErrNone
    ensures RunFor(cpu, ResumeThread(cpu, m).0, quanta) ==
      if StopsAt(m, cpu.next(m.pc)) then final else RunFor(cpu, final, quanta - StepQuanta(cpu, m.pc))
    ensures Settled(cpu, final) && SameBreakpoints(m, final) && Unseen(cpu, m, final)
  {
    hide Settled;
    hide Standing;
    hide CanStep;
    hide StopsAt;
    hide UserAt;
    hide AnyUserAt;
    hide NoneForeign;
    hide StepRange;
    hide RunFor;
    SettledStands(cpu, m);
    StandingPatched(cpu, m);
    NoUserAt(m, m, m.pc);
    var after := HiddenStep(cpu, m, quanta);
    StoppedIsSettled(cpu, m, after);
    hide SameEntries;
    hide Places;
    hide Patched;
    if StopsAt(m, cpu.next(m.pc)) {
      final := Notified(after, Reason(m, cpu.next(m.pc)));
    } else {
      final := Resumed(after);
      if UserAt(m.s, cpu.next(m.pc)) {
        AtNext(m, cpu.next(m.pc));
        assert false;
      }
    }
    SettledIgnoresEvents(cpu, after, final);
  }

  lemma SettledIgnoresEvents(cpu: Cpu, m: Machine, after: Machine)
    requires Settled(cpu, m) && after == m.(suspends := after.suspends, events := after.events)
    ensures Settled(cpu, after)
  {
    hide Inv;
    hide UsersPlaced;
    hide OneToAnAddress;
  }

  lemma {:induction false} FirstDifference(a: seq<Byte>, b: seq<Byte>) returns (k: nat)
    requires |a| == |b| && a != b
    ensures k < |a| && a[k] != b[k]
  {
    if a[0] != b[0] {
      k := 0;
    } else {
      assert a == [a[0]] + a[1..] && b == [b[0]] + b[1..];
      k := FirstDifference(a[1..], b[1..]);
      k := k + 1;
    }
  }

  lemma PokedByte(raw: Memory, a: int, m: Mode, b: int, n: Mode, i: nat)
    requires (m == Arm || m == Thumb) && (n == Arm || n == Thumb)
    requires i < BreakSize(m) && a + i in raw && raw[a + i] != BreakBytes(m)[i]
    requires Poke(raw, b, BreakBytes(n))[a + i] == BreakBytes(m)[i]
    ensures a == b
  {
    assert b <= a + i < b + BreakSize(n);
    assert m == n && i == (a + i - b);
  }

  /** Planting elsewhere does not put a whole breakpoint instruction where there was none. */
  lemma PokedElsewhere(raw: Memory, a: int, m: Mode, b: int, n: Mode)
    requires (m == Arm || m == Thumb) && (n == Arm || n == Thumb)
    requires Mapped(raw, a, BreakSize(m)) && Peek(raw, a, BreakSize(m)) != BreakBytes(m)
    requires Peek(Poke(raw, b, BreakBytes(n)), a, BreakSize(m)) == BreakBytes(m)
    ensures a == b
  {
    hide BreakBytes;
    hide BreakSize;
    var i := FirstDifference(Peek(raw, a, BreakSize(m)), BreakBytes(m));
    assert Peek(Poke(raw, b, BreakBytes(n)), a, BreakSize(m))[i] == BreakBytes(m)[i];
    PokedByte(raw, a, m, b, n, i);
  }

  /** Once the breakpoint under the program counter is out of the way, planting the stop brings a breakpoint
      instruction back there only by using a temporary slot. */
  lemma PlantStopShows(cpu: Cpu, m: Machine, d: State, address: Address, resumeOnce: bool, numSteps: int)
    requires m.pc != 0 && |d.list| >= TEMP_BREAKS && FreeTemp(d.list, 0) == 0
    requires !BreakUnderPc(cpu, m.(s := d)) && Mapped(d.raw, m.pc, BreakSize(ModeAt(cpu, m.pc)))
    ensures var s := PlantStop(cpu, m, d, address, resumeOnce, numSteps).0;
      BreakUnderPc(cpu, m.(s := s)) ==> !TempsFree(s)
  {
    var (s, err) := PlantStop(cpu, m, d, address, resumeOnce, numSteps);
    var user := UserStop(m, d.list, address, 0);
    if 0 <= user < |d.list| || !BreakUnderPc(cpu, m.(s := s)) {
    } else {
      assert s.list[0].address == address;
      assert s.raw == d.raw || s.raw == Poke(d.raw, address, BreakBytes(ModeAt(cpu, address)));
      if s.raw != d.raw {
        PokedElsewhere(d.raw, m.pc, ModeAt(cpu, m.pc), address, ModeAt(cpu, address));
      }
    }
  }

  /** A second step off a breakpoint of another scope shows: that breakpoint is out, or a slot is in use. */
  lemma SecondStepShows(cpu: Cpu, m: Machine)
    requires Standing(cpu, m) && Ordinary(cpu, m.s.base, m.pc)
    ensures var z := StepRange(cpu, m, true, 1).0; BreakUnderPc(cpu, m.(s := z.s)) ==> !TempsFree(z.s)
  {
    hide Standing;
    hide BreakUnderPc;
    hide DisableAt;
    hide PlantStop;
    StandingPatched(cpu, m);
    var d := DisableWorks(cpu, m);
    DisabledPlaces(cpu, m, d);
    FirstIsFree(cpu, m, d);
    assert Mapped(d.raw, m.pc, BreakSize(ModeAt(cpu, m.pc))) && |d.list| >= TEMP_BREAKS && m.pc != 0;
    hide Ordinary;
    OrdinaryExecutes(cpu, m, d);
    hide Patched;
    hide TempsFree;
    hide Disabled;
    PlantStopShows(cpu, m, d, cpu.next(m.pc), true, 1);
  }

  // ---------------------------------------------------------------- exactly when a resume is invisible

  lemma SettledPlantHit(cpu: Cpu, m: Machine, a: Address)
    ensures Settled(cpu, m) && UserAt(m.s, a) ==> a as int in m.s.plants && BreakUnderPc(cpu, m.(pc := a))
  {
    if Settled(cpu, m) && UserAt(m.s, a) {
      SettledUser(cpu, m, a);
      SettledStands(cpu, m);
      StandingPatched(cpu, m);
      StandingPlaces(cpu, m);
      hide Settled;
      hide Standing;
      hide Patched;
      hide Places;
      hide BreakUnderPc;
      PlantedIsHit(cpu, m.(pc := a), m.s);
      SameBreak(cpu, m.(pc := a).(s := m.s), m.(pc := a));
    }
  }

  lemma NotOwn(cpu: Cpu, m: Machine, a: int)
    ensures Settled(cpu, m) && !NoneForeign(m, a) ==> UserAt(m.s, a) && !StopsAt(m, a)
  {
    hide Inv;
    hide UsersPlaced;
    if Settled(cpu, m) && !NoneForeign(m, a) {
      if StopsAt(m, a) {
        OwnStopAlone(m, a);
      }
    }
  }

  lemma OwnStopAlone(m: Machine, a: int)
    ensures OneToAnAddress(m.s) && StopsAt(m, a) ==> NoneForeign(m, a)
  {
    if OneToAnAddress(m.s) && StopsAt(m, a) {
      var i :| m.s.IsUser(i) && m.s.list[i].address == a && InScope(m.s.list[i], m.threadId, m.processId);
      OwnAlone(m, i);
    }
  }

  /** A breakpoint of another scope at the successor: the resume starts a second hidden step off it. */
  lemma ForeignSuccessorShows(cpu: Cpu, m: Machine)
    requires Settled(cpu, m) && CanStep(cpu, m, m.pc) && m.suspends == 1 && UserAt(m.s, m.pc)
    requires cpu.next(m.pc) != m.pc && !NoneForeign(m, cpu.next(m.pc))
    ensures !Unseen(cpu, m, RunFor(cpu, ResumeThread(cpu, m).0, 2))
  {
    hide Settled;
    hide Standing;
    hide StopsAt;
    hide UserAt;
    hide NoneForeign;
    hide BreakUnderPc;
    hide StepRange;
    hide ResumeThread;
    hide StoppedAtNext;
    hide SameUsers;
    hide Ordinary;
    SettledStands(cpu, m);
    NotOwn(cpu, m, cpu.next(m.pc));
    SettledPlantHit(cpu, m, cpu.next(m.pc));
    var after := HiddenStep(cpu, m, 2);
    SameBase(m, after);
    SecondStepShows(cpu, after);
    var z := StepRange(cpu, after, true, 1).0;
    assert RunFor(cpu, ResumeThread(cpu, m).0, 2) == z;
    if z.s.raw == m.s.raw {
      SameBreak(cpu, m.(pc := cpu.next(m.pc)), after.(s := z.s));
    }
  }

  /** A breakpoint of another scope under an instruction that targets itself: one hidden step follows another. */
  lemma ForeignSelfTargetShows(cpu: Cpu, m: Machine)
    requires Standing(cpu, m) && CanStep(cpu, m, m.pc) && m.suspends == 1 && UserAt(m.s, m.pc)
    requires cpu.next(m.pc) == m.pc
    ensures !Unseen(cpu, m, RunFor(cpu, ResumeThread(cpu, m).0, 2))
  {
    hide Standing;
    hide CanStep;
    hide StopsAt;
    hide UserAt;
    hide StepRange;
    hide ResumeThread;
    hide StoppedAtNext;
    hide SameUsers;
    hide RunFor;
    hide Ready;
    hide SameEntries;
    assert !StopsAt(m, m.pc) && m.pc != 0 by {
      SelfTargetOk(cpu, m);
    }
    var after := HiddenStep(cpu, m, 2);
    SameCanStep(cpu, m, after);
    SameUserAt(m, after, m.pc);
    SameStops(m, after, m.pc);
    AnyUserUnderPc(cpu, after);
    var again := HiddenStep(cpu, after, 1);
    StartsWithStep(cpu, after);
    SameUsersTwice(m, after, again);
    SameCanStep(cpu, after, again);
    SameStops(after, again, m.pc);
    var s := StepStarts(cpu, again, true, 1);
    RunForNothing(cpu, StepRange(cpu, again, true, 1).0);
    TempBusy(cpu, again, s);
  }

  lemma RunForNothing(cpu: Cpu, m: Machine)
    ensures RunFor(cpu, m, 0) == m
  {
  }

  lemma AnyUserUnderPc(cpu: Cpu, m: Machine)
    ensures Standing(cpu, m) ==> (AnyUserAt(m.s.list, m.pc) <==> UserAt(m.s, m.pc))
  {
    if Standing(cpu, m) {
      StandingPatched(cpu, m);
      hide Standing;
      hide Patched;
      NoUserAt(m, m, m.pc);
    }
  }

  lemma SelfTargetOk(cpu: Cpu, m: Machine)
    ensures CanStep(cpu, m, m.pc) && cpu.next(m.pc) == m.pc ==> !StopsAt(m, m.pc) && m.pc != 0
  {
  }

  lemma SameCanStep(cpu: Cpu, m: Machine, after: Machine)
    ensures SameUsers(m, after) && CanStep(cpu, m, m.pc) && after.pc == m.pc ==> CanStep(cpu, after, after.pc)
  {
    hide StopsAt;
    hide Ordinary;
    if SameUsers(m, after) && CanStep(cpu, m, m.pc) && after.pc == m.pc {
      SameStops(m, after, m.pc);
    }
  }

  lemma TempBusy(cpu: Cpu, m: Machine, s: State)
    requires Ready(cpu, m, s, true, 1) && !StopsAt(m, cpu.next(m.pc)) && cpu.next(m.pc) != 0
    ensures !TempsFree(Resumed(m.(s := s)).s)
  {
    hide Patched;
    hide Places;
    hide StopsAt;
  }

  /** A breakpoint of another scope under the program counter is not planted again. */
  lemma ForeignUnderShows(cpu: Cpu, m: Machine)
    requires Settled(cpu, m) && CanStep(cpu, m, m.pc) && m.suspends == 1
    requires cpu.next(m.pc) != m.pc && !NoneForeign(m, m.pc) && NoneForeign(m, cpu.next(m.pc))
    ensures RunFor(cpu, ResumeThread(cpu, m).0, 2).s.raw != m.s.raw
  {
    hide Settled;
    hide Standing;
    hide StopsAt;
    hide UserAt;
    hide NoneForeign;
    hide StepRange;
    hide ResumeThread;
    hide Ordinary;
    hide StoppedAtNext;
    hide SameUsers;
    SettledStands(cpu, m);
    NotOwn(cpu, m, m.pc);
    SettledUser(cpu, m, m.pc);
    var after := HiddenStep(cpu, m, 2);
    if UserAt(m.s, cpu.next(m.pc)) {
      AtNext(m, cpu.next(m.pc));
    }
    StoppedKeys(cpu, m, after);
    ArrivedRemains(cpu, m, m.pc);
    SameBase(m, after);
    LostChangesCode(cpu, m, after, m.pc);
  }

  /** Over ordinary code, resuming off a user breakpoint is one hidden step that leaves the code as before
      exactly when no breakpoint of another scope stands at the program counter or at its successor, and the
      instruction does not target itself. */
  lemma ResumeIsInvisibleIff(cpu: Cpu, m: Machine)
    requires Settled(cpu, m) && m.suspends == 1 && AnyUserAt(m.s.list, m.pc)
    requires Ordinary(cpu, m.s.base, m.pc) && Ordinary(cpu, m.s.base, cpu.next(m.pc))
    ensures Unseen(cpu, m, RunFor(cpu, ResumeThread(cpu, m).0, 2)) <==>
      NoneForeign(m, m.pc) && NoneForeign(m, cpu.next(m.pc)) && cpu.next(m.pc) != m.pc
  {
    hide Settled;
    hide Standing;
    hide Ordinary;
    hide StopsAt;
    hide UserAt;
    hide AnyUserAt;
    hide NoneForeign;
    hide SameBreakpoints;
    hide RunFor;
    SettledStands(cpu, m);
    StandingPatched(cpu, m);
    NoUserAt(m, m, m.pc);
    if cpu.next(m.pc) == m.pc && StopsAt(m, m.pc) {
      StartsWithStep(cpu, m);
      SelfTargetRunsAway(cpu, m, true, 1, 2);
    } else if cpu.next(m.pc) == m.pc {
      ForeignSelfTargetShows(cpu, m);
    } else if !NoneForeign(m, cpu.next(m.pc)) {
      ForeignSuccessorShows(cpu, m);
    } else if !NoneForeign(m, m.pc) {
      ForeignUnderShows(cpu, m);
    } else {
      var final := ResumeIsInvisible(cpu, m, 2);
      RunForNothing(cpu, final);
    }
  }

  /** What a resume with a breakpoint of another scope at the successor does instead: it steps off that one
      too, does not plant it again, and only then lets the thread run. */
  lemma ForeignSuccessorIsLost(cpu: Cpu, m: Machine, quanta: nat) returns (final: Machine)
    requires Settled(cpu, m) && CanStep(cpu, m, m.pc) && CanStep(cpu, m, cpu.next(m.pc)) && m.suspends == 1
    requires AnyUserAt(m.s.list, m.pc) && NoneForeign(m, m.pc) && !NoneForeign(m, cpu.next(m.pc))
    requires NoneForeign(m, cpu.next(cpu.next(m.pc))) && quanta >= 4
    ensures RunFor(cpu, ResumeThread(cpu, m).0, quanta) ==
      if StopsAt(m, cpu.next(cpu.next(m.pc))) then final else RunFor(cpu, final, quanta - 4)
    ensures final.pc == cpu.next(cpu.next(m.pc)) && Standing(cpu, final) && SameUsers(m, final)
    ensures final.s.plants.Keys == m.s.plants.Keys - {cpu.next(m.pc) as int} && final.s.raw != m.s.raw
    ensures final.suspends == if StopsAt(m, final.pc) then 1 else 0
    ensures final.events == m.events +
      if !StopsAt(m, final.pc) then []
      else [StopEvent(if StopsForProcess(m, final.pc) then ProcessBreak else ThreadBreak, final.pc)]
  {
    hide Settled;
    hide Standing;
    hide CanStep;
    hide StopsAt;
    hide UserAt;
    hide AnyUserAt;
    hide NoneForeign;
    hide StepRange;
    hide ResumeThread;
    hide StoppedAtNext;
    hide SameUsers;
    hide RunFor;
    hide Arrived;
    var next := cpu.next(m.pc);
    SettledStands(cpu, m);
    AnyUserUnderPc(cpu, m);
    NotOwn(cpu, m, next);
    assert next != m.pc && cpu.next(next) != next;
    var first := HiddenStep(cpu, m, quanta);
    SameUserAt(m, first, next);
    SameStops(m, first, next);
    SameUserAt(m, first, cpu.next(next));
    SameStops(m, first, cpu.next(next));
    SameReason(m, first, cpu.next(next));
    SameBase(m, first);
    FirstCanStep(cpu, m, first);
    AnyUserUnderPc(cpu, first);
    StartsWithStep(cpu, first);
    var second := HiddenStep(cpu, first, quanta - 2);
    SameUsersTwice(m, first, second);
    hide StopsForProcess;
    assert m.events + [] == m.events;
    if UserAt(m.s, cpu.next(next)) {
      AtNext(m, cpu.next(next));
    }
    final := if StopsAt(m, cpu.next(next)) then Notified(second, Reason(first, cpu.next(next))) else Resumed(second);
    StandingIgnoresEvents(cpu, second, final);
    SameUsersIgnoresEvents(m, second, final);
    TwoStepsKeys(cpu, m, first, second);
    SameBase(m, second);
    SettledUser(cpu, m, next);
    NextIsOrdinary(cpu, m);
    LostChangesCode(cpu, m, second, next);
  }

  lemma NextIsOrdinary(cpu: Cpu, m: Machine)
    ensures CanStep(cpu, m, m.pc) ==> Ordinary(cpu, m.s.base, cpu.next(m.pc))
  {
    hide Ordinary;
  }

  lemma FirstCanStep(cpu: Cpu, m: Machine, first: Machine)
    requires SameUsers(m, first) && CanStep(cpu, m, cpu.next(m.pc)) && first.pc == cpu.next(m.pc)
    ensures CanStep(cpu, first, first.pc)
  {
    SameStops(m, first, first.pc);
    hide StopsAt;
    hide Ordinary;
  }

  lemma TwoStepsKeys(cpu: Cpu, m: Machine, first: Machine, second: Machine)
    requires Settled(cpu, m) && StoppedAtNext(cpu, m, first) && Standing(cpu, first) && StoppedAtNext(cpu, first, second)
    requires NoneForeign(m, m.pc) && !NoneForeign(m, cpu.next(m.pc)) && NoneForeign(m, cpu.next(cpu.next(m.pc)))
    requires cpu.next(m.pc) != m.pc && cpu.next(cpu.next(m.pc)) != cpu.next(m.pc)
    ensures second.s.plants.Keys == m.s.plants.Keys - {cpu.next(m.pc) as int}
  {
    hide Settled;
    hide Standing;
    hide NoneForeign;
    hide UserAt;
    hide Arrived;
    hide StoppedAtNext;
    hide SameUsers;
    var next := cpu.next(m.pc);
    StoppedKeys(cpu, m, first);
    StoppedKeys(cpu, first, second);
    StoppedSuspends(cpu, m, first);
    StoppedSuspends(cpu, first, second);
    SameUserAt(m, first, cpu.next(next));
    SameStops(m, first, next);
    forall a: int ensures a in second.s.plants <==> a in m.s.plants && a != next {
      ArrivedRemains(cpu, m, a);
      ArrivedRemains(cpu, first, a);
      SameUserAt(m, first, a);
      SameStops(m, first, a);
      SettledUser(cpu, m, a);
    }
  }

  // ---------------------------------------------------------------- a thread with another one's breakpoint ahead

  predicate InImage(x: int) {
    0 <= x < 64
  }

  /** Words of zeros, one instruction each. */
  function Zeros(): (program: Memory)
    ensures forall x :: x in program <==> InImage(x)
    ensures forall x :: InImage(x) ==> program[x] == 0
  {
    map x: int | 0 <= x < 64 && InImage(x) :: 0
  }

  function WordByWord(): Cpu {
    Cpu((a: Address) => if a + 4 < ADDRESS_SPACE then a + 4 else 0, (x: int) => false)
  }

  lemma ZeroWordIsOrdinary(address: int)
    ensures 0 < address <= 60 && address % 4 == 0 ==> Ordinary(WordByWord(), Zeros(), address)
  {
    if 0 < address <= 60 && address % 4 == 0 {
      assert Peek(Zeros(), address, 4)[0] == 0;
    }
  }

  /** A set that nothing stands against, and its breakpoint. */
  lemma SetAccepted(s: State, id: nat, address: Address) returns (after: State, entry: BreakEntry)
    requires Inv(s) && id in s.threads && s.base == Zeros() && 0 < address <= 60 && address % 4 == 0
    requires |s.list| < 50 && FirstConflict(s, id, true, address, Arm, TEMP_BREAKS) == ErrNone
    requires forall i :: s.IsUser(i) ==> SamePlace(s.list[i], address, Arm)
    ensures (after, ErrNone) == SetBreak(s, id, true, address, Arm) && Inv(after)
    ensures after.list == s.list + [entry] && after.base == s.base && after.threads == s.threads
    ensures entry.address == address && entry.mode == Arm && entry.threadSpecific && entry.id == id
    ensures !entry.disabledForStep
  {
    assert Mapped(s.raw, address, 4);
    var err;
    after, err, entry := SetShape(s, id, true, address, Arm);
    assert err == ErrNone;
    SetKeepsInv(s, after, err, entry);
  }

  /** Apart from the only user breakpoint, a set meets no conflict. */
  lemma ApartFromOne(s: State, own: BreakEntry)
    requires |s.list| == 11 && s.list[10] == own && own.address == 8 && own.mode == Arm && own.threadSpecific
    ensures FirstConflict(s, 2, true, 12, Arm, TEMP_BREAKS) == ErrNone
  {
    OverlapIsIntersection(12, Arm, 8, Arm);
    assert FirstConflict(s, 2, true, 12, Arm, 11) == ErrNone;
  }

  lemma TwoSet() returns (s: State, own: BreakEntry, foreign: BreakEntry)
    ensures Inv(s) && s.base == Zeros() && s.threads == map[1 := 7, 2 := 7]
    ensures |s.list| == 12 && s.list[10] == own && s.list[11] == foreign
    ensures own.address == 8 && own.mode == Arm && own.threadSpecific && own.id == 1
    ensures foreign.address == 12 && foreign.mode == Arm && foreign.threadSpecific && foreign.id == 2
  {
    hide Inv;
    hide FirstConflict;
    hide SetBreak;
    var start := Fresh(Zeros(), map[1 := 7, 2 := 7]);
    FreshInv(Zeros(), map[1 := 7, 2 := 7]);
    NoneToConflict(start, 1, 8);
    var one;
    one, own := SetAccepted(start, 1, 8);
    ApartFromOne(one, own);
    s, foreign := SetAccepted(one, 2, 12);
  }

  lemma NoneToConflict(s: State, id: nat, address: Address)
    ensures |s.list| == TEMP_BREAKS ==> FirstConflict(s, id, true, address, Arm, TEMP_BREAKS) == ErrNone
  {
  }

  lemma TwoPlaced(s: State, own: BreakEntry, foreign: BreakEntry)
    requires |s.list| == 12 && s.list[10] == own && s.list[11] == foreign && s.threads == map[1 := 7, 2 := 7]
    requires own.address == 8 && own.mode == Arm && own.threadSpecific && own.id == 1
    requires foreign.address == 12 && foreign.mode == Arm && foreign.threadSpecific && foreign.id == 2
    ensures UsersPlaced(WordByWord(), s) && OneToAnAddress(s)
  {
    forall i | s.IsUser(i) ensures UserPlaced(WordByWord(), s, s.list[i]) {
      assert i == 10 || i == 11;
    }
  }

  /** Two threads of one process, each with its breakpoint: the first thread's at 8, where it has stopped, and
      the second one's at 12. */
  lemma ForeignSuccessorState() returns (m: Machine)
    ensures Settled(WordByWord(), m) && m.s.base == Zeros() && m.pc == 8 && m.suspends == 1
    ensures AnyUserAt(m.s.list, 8) && NoneForeign(m, 8) && !NoneForeign(m, 12) && !UserAt(m.s, 16)
  {
    hide Inv;
    hide UserPlaced;
    hide AnyUserAt;
    hide Zeros;
    hide Ordered;
    var s, own, foreign := TwoSet();
    TwoPlaced(s, own, foreign);
    m := Machine(s, 1, 7, 8, 1, []);
    hide UsersPlaced;
    InvOrderedList(s);
    assert s.IsUser(10) && s.IsUser(11);
    NoUserAt(m, m, 8);
  }

  lemma InvOrderedList(s: State)
    ensures Inv(s) ==> Ordered(s)
  {
  }

  lemma ThreeOrdinary()
    ensures var cpu := WordByWord(); Ordinary(cpu, Zeros(), 8) && Ordinary(cpu, Zeros(), 12) && Ordinary(cpu, Zeros(), 16)
    ensures WordByWord().next(8) == 12 && WordByWord().next(12) == 16
  {
    ZeroWordIsOrdinary(8);
    ZeroWordIsOrdinary(12);
    ZeroWordIsOrdinary(16);
  }

  /** There the resume is seen: it runs on to 16 with the second thread's breakpoint gone from the code. */
  lemma ResumeLosesForeignSuccessor() returns (m: Machine)
    ensures Settled(WordByWord(), m) && m.pc == 8 && AnyUserAt(m.s.list, 8) && NoneForeign(m, 8) && m.suspends == 1
    ensures !Unseen(WordByWord(), m, RunFor(WordByWord(), ResumeThread(WordByWord(), m).0, 2))
    ensures var final := RunFor(WordByWord(), ResumeThread(WordByWord(), m).0, 4);
      && final.pc == 16 && final.suspends == 0
      && 12 in m.s.plants && 12 !in final.s.plants && final.s.raw != m.s.raw
  {
    hide Settled;
    hide Standing;
    hide Ordinary;
    hide UserAt;
    hide StopsAt;
    hide AnyUserAt;
    hide NoneForeign;
    hide Unseen;
    hide ResumeThread;
    hide RunFor;
    hide Zeros;
    hide WordByWord;
    hide SameUsers;
    m := ForeignSuccessorState();
    var cpu := WordByWord();
    ThreeOrdinary();
    ResumeIsInvisibleIff(cpu, m);
    ForeignIsUser(m, 12);
    SettledUser(cpu, m, 12);
    NotStopped(m, 16);
    var final := ForeignSuccessorIsLost(cpu, m, 4);
    RunForNothing(cpu, final);
  }

  lemma NotStopped(m: Machine, a: int)
    ensures !UserAt(m.s, a) ==> !StopsAt(m, a) && NoneForeign(m, a)
  {
  }

  // ---------------------------------------------------------------- stepping after a write

  lemma ReadyInstruction(cpu: Cpu, m: Machine, s: State, resumeOnce: bool, numSteps: int)
    requires CanStep(cpu, m, m.pc) && cpu.next(m.pc) != m.pc && Ready(cpu, m, s, resumeOnce, numSteps)
    ensures var size := BreakSize(ModeAt(cpu, m.pc));
      Mapped(m.s.base, m.pc, size) && Mapped(s.raw, m.pc, size) && Peek(s.raw, m.pc, size) == Peek(m.s.base, m.pc, size)
  {
    hide Patched;
    hide Places;
    FreePlaceHoldsBase(cpu, s, m.pc, ModeAt(cpu, m.pc));
  }

  /** A step off a breakpoint executes the bytes that its planting replaced. What a read shows there is executed
      exactly when the place was not written since. */
  lemma StepRunsRecorded(cpu: Cpu, m: Machine, text: Memory, i: nat, resumeOnce: bool, numSteps: int)
    returns (started: Machine)
    requires Settled(cpu, m) && CanStep(cpu, m, m.pc) && cpu.next(m.pc) != m.pc && View(m.s, text)
    requires m.s.IsUser(i) && m.s.list[i].address == m.pc
    ensures StepRange(cpu, m, resumeOnce, numSteps) == (started, ErrNone)
    ensures m.pc as int in m.s.plants
    ensures var size := BreakSize(ModeAt(cpu, m.pc));
      && Mapped(started.s.raw, m.pc, size) && Mapped(text, m.pc, size)
      && Peek(started.s.raw, m.pc, size) == m.s.plants[m.pc].original
      && (Peek(started.s.raw, m.pc, size) == Peek(text, m.pc, size) <==> !Rewritten(m.s, m.s.list[i]))
  {
    hide Settled;
    hide Standing;
    hide View;
    hide Ready;
    hide StepRange;
    hide CanStep;
    SettledStands(cpu, m);
    StandingUser(cpu, m, i);
    var s := StepStarts(cpu, m, resumeOnce, numSteps);
    started := Resumed(m.(s := s));
    ReadyInstruction(cpu, m, s, resumeOnce, numSteps);
    RecordedBytes(m.s, text, i);
    SavedIsPeek(text, m.s.list[i]);
    PlaceIsSupported(cpu, m.pc, m.s.list[i].mode);
  }
}
