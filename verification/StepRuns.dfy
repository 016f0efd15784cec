/** What a whole step request or resume does, from the call to the thread's next stop. */
module StepRuns {
  import opened Wrappers
  import opened CodeMemory
  import opened Breakpoints
  import opened BreakpointRuns
  import opened Stepping

  // ---------------------------------------------------------------- places in code

  /** An address where an instruction of the word's instruction set can start. */
  ghost predicate Place(cpu: Cpu, address: int, mode: Mode) {
    0 <= address < ADDRESS_SPACE && Supported(mode) && mode == ModeAt(cpu, address) && Aligned(address, mode)
  }

  lemma WithinWord(a: int, m: Mode)
    ensures Supported(m) && Aligned(a, m) ==> 4 * (a / 4) <= a && a + BreakSize(m) <= 4 * (a / 4) + 4
    ensures Supported(m) && Aligned(a, m) ==> a == 4 * (a / 4) || (m == Thumb && a == 4 * (a / 4) + 2)
  {
    if Supported(m) && Aligned(a, m) {
      assert 4 * (a / 4) <= a < 4 * (a / 4) + 4;
      assert a % 4 == 0 ==> a == 4 * (a / 4);
      assert a % 2 == 0 ==> a == 2 * (a / 2);
      if m == Thumb {
        assert a == 4 * (a / 4) || a == 4 * (a / 4) + 2;
      }
    }
  }

  /** Two places are the same or share no byte: a word holds instructions of one set only. */
  lemma PlacesApart(cpu: Cpu, a: int, m: Mode, b: int, n: Mode)
    ensures Place(cpu, a, m) && Place(cpu, b, n) ==> (a == b && m == n) || !Intersect(a, m, b, n)
  {
    if Place(cpu, a, m) && Place(cpu, b, n) {
      WithinWord(a, m);
      WithinWord(b, n);
      hide Aligned;
      var u, v := a / 4, b / 4;
      if u != v {
        assert !(a < b + BreakSize(n) && b < a + BreakSize(m));
      }
    }
  }

  ghost predicate Places(cpu: Cpu, plants: Plants) {
    forall p :: p in plants ==> Place(cpu, p, plants[p].mode)
  }

  lemma PlaceFits(cpu: Cpu, plants: Plants, address: int, mode: Mode)
    ensures Places(cpu, plants) && Place(cpu, address, mode) ==> SameOrApart(plants, address, mode)
  {
    hide Place;
    if Places(cpu, plants) && Place(cpu, address, mode) {
      forall p | p in plants
        ensures (p == address && plants[p].mode == mode) || !Intersect(p, plants[p].mode, address, mode)
      {
        PlacesApart(cpu, p, plants[p].mode, address, mode);
      }
    }
  }

  /** At places, which addresses are planted says all that is remembered. */
  lemma PlacesDetermine(cpu: Cpu, base: Memory, a: Plants, b: Plants)
    requires Places(cpu, a) && Places(cpu, b) && Recorded(base, a) && Recorded(base, b) && a.Keys == b.Keys
    ensures a == b
  {
    forall p | p in a ensures a[p] == b[p] {
      assert p in b && Place(cpu, p, a[p].mode) && Place(cpu, p, b[p].mode);
    }
  }

  // ---------------------------------------------------------------- between steps

  /** User breakpoints stand one to an address, at places of their instruction set, through live
      threads; all of them are planted and no temporary slot is in use. */
  ghost predicate Settled(cpu: Cpu, m: Machine) {
    && Inv(m.s)
    && ThreadLives(m)
    && UsersPlaced(cpu, m.s)
    && OneToAnAddress(m.s)
  }

  predicate ThreadLives(m: Machine) {
    m.threadId in m.s.threads && m.s.threads[m.threadId] == m.processId
  }

  ghost predicate UserPlaced(cpu: Cpu, s: State, entry: BreakEntry) {
    && Place(cpu, entry.address, entry.mode)
    && entry.address != 0
    && HandleLive(s, entry)
  }

  ghost predicate UsersPlaced(cpu: Cpu, s: State) {
    forall i :: s.IsUser(i) ==> UserPlaced(cpu, s, s.list[i])
  }

  ghost predicate OneToAnAddress(s: State) {
    forall i, j :: s.IsUser(i) && s.IsUser(j) && i != j ==> s.list[i].address != s.list[j].address
  }

  /** The user breakpoint is planted, or a step has lost it: then it is disabled, and not the thread's own. */
  ghost predicate PlantedOrLost(m: Machine, entry: BreakEntry) {
    if entry.address in m.s.plants then m.s.plants[entry.address].mode == entry.mode
    else entry.disabledForStep && !InScope(entry, m.threadId, m.processId)
  }

  ghost predicate AllPlantedOrLost(m: Machine) {
    forall i :: m.s.IsUser(i) ==> PlantedOrLost(m, m.s.list[i])
  }

  ghost predicate OnlyUsersPlanted(s: State) {
    forall a :: a in s.plants ==> UserAt(s, a)
  }

  /** As settled, but breakpoints of other scopes may have been lost, other than under the program counter. */
  ghost predicate Standing(cpu: Cpu, m: Machine) {
    && ListOk(m.s)
    && Patched(m.s.raw, m.s.base, m.s.plants)
    && ThreadLives(m)
    && UsersPlaced(cpu, m.s)
    && OneToAnAddress(m.s)
    && OnlyUsersPlanted(m.s)
    && AllPlantedOrLost(m)
    && (UserAt(m.s, m.pc) ==> m.pc in m.s.plants)
  }

  lemma SettledStands(cpu: Cpu, m: Machine)
    ensures Settled(cpu, m) ==> Standing(cpu, m)
  {
    hide ListOk;
    hide Patched;
    if Settled(cpu, m) {
      assert OnlyUsersPlanted(m.s) && AllPlantedOrLost(m) && (UserAt(m.s, m.pc) ==> m.pc in m.s.plants);
      hide UsersPlaced;
      hide OneToAnAddress;
      hide OnlyUsersPlanted;
      hide AllPlantedOrLost;
      hide Counted;
      hide UserAt;
    }
  }

  lemma PlacedIsDisjoint(cpu: Cpu, s: State)
    ensures UsersPlaced(cpu, s) ==> EqualOrDisjoint(s)
  {
    hide Place;
    if UsersPlaced(cpu, s) {
      forall i, j | TEMP_BREAKS <= i < |s.list| && TEMP_BREAKS <= j < |s.list|
        ensures SamePlace(s.list[i], s.list[j].address, s.list[j].mode)
      {
        assert s.IsUser(i) && s.IsUser(j);
        assert UserPlaced(cpu, s, s.list[i]) && UserPlaced(cpu, s, s.list[j]);
        PlacesApart(cpu, s.list[i].address, s.list[i].mode, s.list[j].address, s.list[j].mode);
      }
    }
  }

  /** Standing with no breakpoint lost is settled. */
  lemma StandingSettles(cpu: Cpu, m: Machine)
    requires Standing(cpu, m) && forall i :: m.s.IsUser(i) ==> m.s.list[i].address in m.s.plants
    ensures Settled(cpu, m)
  {
    hide ListOk;
    hide Patched;
    PlacedIsDisjoint(cpu, m.s);
    hide EqualOrDisjoint;
    hide UsersPlaced;
    hide OneToAnAddress;
    assert Counted(m.s) by {
      forall i | m.s.IsUser(i) ensures m.s.plants[m.s.list[i].address].mode == m.s.list[i].mode {
        assert PlantedOrLost(m, m.s.list[i]);
      }
    }
  }

  /** The breakpoint is for this thread, or for all threads of its process. */
  predicate IsOwn(m: Machine, entry: BreakEntry) {
    (entry.threadSpecific && entry.id == m.threadId) || (!entry.threadSpecific && entry.id == m.processId)
  }

  /** A user breakpoint at this address stops the thread. */
  ghost predicate StopsAt(m: Machine, address: int) {
    exists i :: m.s.IsUser(i) && m.s.list[i].address == address && IsOwn(m, m.s.list[i])
  }

  /** A user breakpoint at this address stops the thread, and it is set for the whole process. */
  ghost predicate StopsForProcess(m: Machine, address: int) {
    exists i :: m.s.IsUser(i) && m.s.list[i].address == address && IsOwn(m, m.s.list[i]) && !m.s.list[i].threadSpecific
  }

  /** The event a stop at this address raises. */
  ghost function Reason(m: Machine, address: int): StopKind {
    if StopsForProcess(m, address) then ProcessBreak else ThreadBreak
  }

  /** The user breakpoint at this address, if any, is one of the thread's own. */
  ghost predicate NoneForeign(m: Machine, address: int) {
    forall i :: m.s.IsUser(i) && m.s.list[i].address == address ==> IsOwn(m, m.s.list[i])
  }

  /** The code at an address is mapped and is not itself a breakpoint instruction. */
  ghost predicate Ordinary(cpu: Cpu, base: Memory, address: int) {
    && 0 <= address < ADDRESS_SPACE
    && address != 0
    && Place(cpu, address, ModeAt(cpu, address))
    && Mapped(base, address, BreakSize(ModeAt(cpu, address)))
    && Peek(base, address, BreakSize(ModeAt(cpu, address))) != BreakBytes(ModeAt(cpu, address))
  }

  /** The thread can be stepped off this address: ordinary code on both sides, and no user breakpoint
      of the thread's own on an instruction that targets itself. */
  ghost predicate CanStep(cpu: Cpu, m: Machine, pc: Address) {
    && Ordinary(cpu, m.s.base, pc)
    && Ordinary(cpu, m.s.base, cpu.next(pc))
    && (cpu.next(pc) != pc || !StopsAt(m, pc))
  }

  /** The addresses a step plants again: all but one of another scope under the program counter. */
  ghost function Kept(m: Machine): set<int> {
    if NoneForeign(m, m.pc) then m.s.plants.Keys else m.s.plants.Keys - {m.pc as int}
  }

  /** The addresses planted once the step has stopped: any user breakpoint at the successor is among them. */
  ghost function Arrived(cpu: Cpu, m: Machine): set<int> {
    if UserAt(m.s, cpu.next(m.pc)) then Kept(m) + {cpu.next(m.pc) as int} else Kept(m)
  }

  /** Lists that differ only in the marks stepping leaves on user entries. */
  ghost predicate SameEntries(before: seq<BreakEntry>, after: seq<BreakEntry>) {
    && |before| == |after|
    && (forall i :: TEMP_BREAKS <= i < |after| ==>
          && after[i] == before[i].(disabledForStep := after[i].disabledForStep, numSteps := after[i].numSteps)
          && (before[i].disabledForStep ==> after[i].disabledForStep))
    && (forall i :: 0 <= i < TEMP_BREAKS && i < |after| ==> after[i].breakId == before[i].breakId)
  }

  /** The same user breakpoints, though perhaps not all planted any more. */
  ghost predicate SameUsers(m: Machine, after: Machine) {
    && after.threadId == m.threadId && after.processId == m.processId
    && after.s == m.s.(list := after.s.list, raw := after.s.raw, plants := after.s.plants)
    && SameEntries(m.s.list, after.s.list)
  }

  /** Nothing but such marks has changed: same breakpoints, same code bytes. */
  ghost predicate SameBreakpoints(m: Machine, after: Machine) {
    SameUsers(m, after) && after.s.raw == m.s.raw && after.s.plants == m.s.plants
  }

  lemma SameUser(m: Machine, after: Machine, i: nat)
    requires SameUsers(m, after)
    ensures m.s.IsUser(i) <==> after.s.IsUser(i)
    ensures m.s.IsUser(i) ==>
      && after.s.list[i].address == m.s.list[i].address
      && after.s.list[i].threadSpecific == m.s.list[i].threadSpecific
      && (InScope(after.s.list[i], after.threadId, after.processId) <==> InScope(m.s.list[i], m.threadId, m.processId))
  {
  }

  lemma SameReason(m: Machine, after: Machine, a: int)
    ensures SameUsers(m, after) ==> Reason(after, a) == Reason(m, a)
  {
    if SameUsers(m, after) {
      if StopsForProcess(m, a) {
        var i :| m.s.IsUser(i) && m.s.list[i].address == a && InScope(m.s.list[i], m.threadId, m.processId)
          && !m.s.list[i].threadSpecific;
        SameUser(m, after, i);
      }
      if StopsForProcess(after, a) {
        var i :| after.s.IsUser(i) && after.s.list[i].address == a && InScope(after.s.list[i], after.threadId, after.processId)
          && !after.s.list[i].threadSpecific;
        SameUser(m, after, i);
      }
    }
  }

  lemma SameUserAt(m: Machine, after: Machine, a: int)
    ensures SameUsers(m, after) ==> (UserAt(m.s, a) <==> UserAt(after.s, a))
  {
    if SameUsers(m, after) {
      if UserAt(m.s, a) {
        var i :| m.s.IsUser(i) && m.s.list[i].address == a;
        SameUser(m, after, i);
      }
      if UserAt(after.s, a) {
        var i :| after.s.IsUser(i) && after.s.list[i].address == a;
        SameUser(m, after, i);
      }
    }
  }

  lemma SameStops(m: Machine, after: Machine, a: int)
    ensures SameUsers(m, after) ==> (StopsAt(m, a) <==> StopsAt(after, a))
    ensures SameUsers(m, after) ==> (NoneForeign(m, a) <==> NoneForeign(after, a))
  {
    if SameUsers(m, after) {
      if StopsAt(m, a) {
        var i :| m.s.IsUser(i) && m.s.list[i].address == a && InScope(m.s.list[i], m.threadId, m.processId);
        SameUser(m, after, i);
      }
      if StopsAt(after, a) {
        var i :| after.s.IsUser(i) && after.s.list[i].address == a && InScope(after.s.list[i], after.threadId, after.processId);
        SameUser(m, after, i);
      }
      if NoneForeign(after, a) {
        forall i | m.s.IsUser(i) && m.s.list[i].address == a ensures InScope(m.s.list[i], m.threadId, m.processId) {
          SameUser(m, after, i);
        }
      }
      if NoneForeign(m, a) {
        forall i | after.s.IsUser(i) && after.s.list[i].address == a
          ensures InScope(after.s.list[i], after.threadId, after.processId)
        {
          SameUser(m, after, i);
        }
      }
    }
  }

  lemma OneToAnAddressAgain(m: Machine, after: Machine)
    ensures OneToAnAddress(m.s) && SameUsers(m, after) ==> OneToAnAddress(after.s)
  {
    if OneToAnAddress(m.s) && SameUsers(m, after) {
      forall i, j | after.s.IsUser(i) && after.s.IsUser(j) && i != j ensures after.s.list[i].address != after.s.list[j].address {
        SameUser(m, after, i);
        SameUser(m, after, j);
      }
    }
  }

  lemma OwnAlone(m: Machine, i: nat)
    requires OneToAnAddress(m.s) && m.s.IsUser(i) && InScope(m.s.list[i], m.threadId, m.processId)
    ensures NoneForeign(m, m.s.list[i].address)
  {
  }

  lemma StandingPlaces(cpu: Cpu, m: Machine)
    ensures Standing(cpu, m) ==> Places(cpu, m.s.plants)
  {
    hide ListOk;
    hide Patched;
    hide Place;
    if Standing(cpu, m) {
      forall p | p in m.s.plants ensures Place(cpu, p, m.s.plants[p].mode) {
        var i :| m.s.IsUser(i) && m.s.list[i].address == p;
        assert UserPlaced(cpu, m.s, m.s.list[i]) && PlantedOrLost(m, m.s.list[i]);
      }
    }
  }

  /** The thread's own breakpoints are never lost. */
  lemma OwnIsPlanted(cpu: Cpu, m: Machine, address: int)
    ensures Standing(cpu, m) && StopsAt(m, address) ==> address in m.s.plants && UserAt(m.s, address)
  {
    hide ListOk;
    hide Patched;
    if Standing(cpu, m) && StopsAt(m, address) {
      var i :| m.s.IsUser(i) && m.s.list[i].address == address && InScope(m.s.list[i], m.threadId, m.processId);
      assert PlantedOrLost(m, m.s.list[i]);
    }
  }

  lemma StandingPatched(cpu: Cpu, m: Machine)
    requires Standing(cpu, m)
    ensures Patched(m.s.raw, m.s.base, m.s.plants)
    ensures Ordered(m.s) && TempsFree(m.s)
    ensures OneToAnAddress(m.s) && OnlyUsersPlanted(m.s)
    ensures UserAt(m.s, m.pc) ==> m.pc in m.s.plants
  {
    hide Patched;
  }

  lemma StandingUser(cpu: Cpu, m: Machine, i: nat)
    ensures Standing(cpu, m) && m.s.IsUser(i) ==>
      UserPlaced(cpu, m.s, m.s.list[i]) && PlantedOrLost(m, m.s.list[i]) && UserOk(m.s, m.s.list[i])
  {
    hide Patched;
  }

  // ---------------------------------------------------------------- disabling under the program counter

  lemma {:induction false} DisableNothing(s: State, address: Address, i: nat)
    requires forall k :: i <= k < |s.list| ==> s.list[k].address != address
    ensures DisableAt(s, address, i) == (s, ErrNone)
    decreases |s.list| - i
  {
    if i >= |s.list| {
    } else {
      DisableNothing(s, address, i + 1);
    }
  }

  function Marked(s: State, k: nat): State
    requires k < |s.list|
  {
    s.(list := s.list[k := s.list[k].(disabledForStep := true)])
  }

  lemma {:induction false} DisableOne(s: State, i: nat, k: nat)
    requires i <= k < |s.list|
    requires forall j :: i <= j < |s.list| && j != k ==> s.list[j].address != s.list[k].address
    requires HandleLive(s, s.list[k]) && CanRestore(s, s.list[k].address)
    ensures DisableAt(s, s.list[k].address, i) == (RestoreCode(Marked(s, k), s.list[k].address), ErrNone)
    decreases k - i
  {
    if i == k {
      DisableNothing(RestoreCode(Marked(s, k), s.list[k].address), s.list[k].address, k + 1);
    } else {
      DisableOne(s, i + 1, k);
    }
  }

  /** The state once the breakpoint under the program counter is out of the way. */
  ghost predicate Disabled(m: Machine, s: State) {
    && s == m.s.(list := s.list, raw := s.raw, plants := s.plants)
    && SameEntries(m.s.list, s.list)
    && (forall i :: 0 <= i < TEMP_BREAKS && i < |s.list| ==> s.list[i] == m.s.list[i])
    && (forall i :: s.IsUser(i) && s.list[i].address == m.pc ==> s.list[i].disabledForStep)
    && s.plants == m.s.plants - {m.pc as int}
    && Patched(s.raw, s.base, s.plants)
  }

  lemma DisableWorks(cpu: Cpu, m: Machine) returns (s: State)
    requires Standing(cpu, m)
    ensures DisableAt(m.s, m.pc, TEMP_BREAKS) == (s, ErrNone)
    ensures Disabled(m, s)
  {
    hide Standing;
    hide Disabled;
    hide Ordered;
    hide TempsFree;
    StandingPatched(cpu, m);
    if k :| m.s.IsUser(k) && m.s.list[k].address == m.pc {
      s := DisableUser(cpu, m, k);
    } else {
      DisableNothing(m.s, m.pc, TEMP_BREAKS);
      s := m.s;
      NothingDisabled(m);
    }
  }

  lemma NothingDisabled(m: Machine)
    requires OnlyUsersPlanted(m.s) && Patched(m.s.raw, m.s.base, m.s.plants)
    requires forall k :: m.s.IsUser(k) ==> m.s.list[k].address != m.pc
    ensures Disabled(m, m.s)
  {
    hide Patched;
    assert m.pc as int !in m.s.plants;
    assert m.s.plants - {m.pc as int} == m.s.plants;
  }

  lemma DisableUser(cpu: Cpu, m: Machine, k: nat) returns (s: State)
    requires Standing(cpu, m) && m.s.IsUser(k) && m.s.list[k].address == m.pc
    ensures DisableAt(m.s, m.pc, TEMP_BREAKS) == (s, ErrNone) && Disabled(m, s)
  {
    hide Standing;
    hide Patched;
    hide Ordered;
    hide TempsFree;
    hide Place;
    hide HandleLive;
    StandingPatched(cpu, m);
    StandingUser(cpu, m, k);
    assert UserAt(m.s, m.pc);
    RestoreKeepsPatched(m.s.raw, m.s.base, m.s.plants, m.pc);
    assert forall j :: TEMP_BREAKS <= j < |m.s.list| && j != k ==> m.s.list[j].address != m.s.list[k].address by {
      forall j | TEMP_BREAKS <= j < |m.s.list| && j != k ensures m.s.list[j].address != m.s.list[k].address {
        assert m.s.IsUser(j);
      }
    }
    DisableOne(m.s, TEMP_BREAKS, k);
    s := RestoreCode(Marked(m.s, k), m.pc);
    assert Disabled(m, s) by {
      hide Patched;
      forall i | s.IsUser(i) && s.list[i].address == m.pc ensures s.list[i].disabledForStep {
        assert m.s.IsUser(i);
      }
    }
  }

  // ---------------------------------------------------------------- planting the stop

  predicate StopsHere(m: Machine, entry: BreakEntry, address: int) {
    entry.breakId >= TEMP_BREAKS && entry.address == address && InScope(entry, m.threadId, m.processId)
  }

  lemma {:induction false} UserStopMeaning(m: Machine, list: seq<BreakEntry>, address: Address, i: nat)
    ensures var k := UserStop(m, list, address, i); k == -1 || (i <= k < |list| && StopsHere(m, list[k], address))
    ensures UserStop(m, list, address, i) == -1 ==> forall j :: i <= j < |list| ==> !StopsHere(m, list[j], address)
    decreases |list| - i
  {
    if i >= |list| {
    } else {
      UserStopMeaning(m, list, address, i + 1);
    }
  }

  lemma UserIds(s: State, list: seq<BreakEntry>)
    requires Ordered(s) && |list| == |s.list|
    requires forall i :: 0 <= i < |list| ==> list[i].breakId == s.list[i].breakId
    ensures forall i :: 0 <= i < |list| ==> (list[i].breakId >= TEMP_BREAKS <==> i >= TEMP_BREAKS)
  {
    assert s.list[TEMP_BREAKS - 1].breakId == TEMP_BREAKS - 1;
  }

  lemma UserStopIsStopsAt(m: Machine, s: State, address: Address)
    requires Ordered(m.s) && SameEntries(m.s.list, s.list)
    ensures var k := UserStop(m, s.list, address, 0);
      if StopsAt(m, address) then s.IsUser(k) && s.list[k].address == address && InScope(s.list[k], m.threadId, m.processId)
      else k == -1
  {
    UserStopMeaning(m, s.list, address, 0);
    UserIds(m.s, s.list);
    if StopsAt(m, address) {
      var i :| m.s.IsUser(i) && m.s.list[i].address == address && IsOwn(m, m.s.list[i]);
      assert StopsHere(m, s.list[i], address);
    }
    var k := UserStop(m, s.list, address, 0);
    if k != -1 {
      assert m.s.IsUser(k) && m.s.list[k].address == address;
    }
  }

  /** Ready for one step: the breakpoint at the program counter is out, the successor is planted, and
      unless a user breakpoint stops the thread there, slot 0 holds the temporary one. */
  ghost predicate Ready(cpu: Cpu, m: Machine, s: State, resumeOnce: bool, numSteps: int) {
    var next := cpu.next(m.pc);
    && s == m.s.(list := s.list, raw := s.raw, plants := s.plants)
    && SameEntries(m.s.list, s.list)
    && |s.list| >= TEMP_BREAKS
    && (forall i :: 1 <= i < TEMP_BREAKS ==> s.list[i].address == 0)
    && (forall i :: s.IsUser(i) && s.list[i].address == m.pc ==> s.list[i].disabledForStep)
    && s.plants.Keys == m.s.plants.Keys - {m.pc as int} + {next as int}
    && Places(cpu, s.plants)
    && Patched(s.raw, s.base, s.plants)
    && (if StopsAt(m, next) then s.list[0].address == 0
        else && s.list[0].address == next && s.list[0].id == m.threadId && s.list[0].threadSpecific
             && s.list[0].mode == ModeAt(cpu, next)
             && s.list[0].resumeOnce == resumeOnce && s.list[0].numSteps == numSteps)
  }

  lemma DisabledPlaces(cpu: Cpu, m: Machine, d: State)
    ensures Standing(cpu, m) && Disabled(m, d) ==> Places(cpu, d.plants)
  {
    if Standing(cpu, m) && Disabled(m, d) {
      StandingPlaces(cpu, m);
      hide Standing;
      hide Patched;
      hide Place;
    }
  }

  lemma UserStopReadies(cpu: Cpu, m: Machine, d: State, user: nat, resumeOnce: bool, numSteps: int)
    requires Disabled(m, d) && TempsFree(m.s) && d.IsUser(user) && StopsAt(m, cpu.next(m.pc))
    requires Places(cpu, d.plants) && cpu.next(m.pc) in d.plants
    ensures Ready(cpu, m, d.(list := d.list[user := d.list[user].(numSteps := 0)]), resumeOnce, numSteps)
  {
    hide Patched;
    hide Places;
    hide StopsAt;
    assert d.plants.Keys == m.s.plants.Keys - {m.pc as int};
    assert d.plants.Keys == m.s.plants.Keys - {m.pc as int} + {cpu.next(m.pc) as int};
  }

  lemma PlantForUser(cpu: Cpu, m: Machine, d: State, resumeOnce: bool, numSteps: int)
    requires Standing(cpu, m) && CanStep(cpu, m, m.pc) && Disabled(m, d) && StopsAt(m, cpu.next(m.pc))
    ensures var (s, err) := PlantStop(cpu, m, d, cpu.next(m.pc), resumeOnce, numSteps);
      err == ErrNone && Ready(cpu, m, s, resumeOnce, numSteps)
  {
    hide Standing;
    hide Patched;
    hide Ready;
    hide StopsAt;
    hide Ordinary;
    hide Places;
    var next := cpu.next(m.pc);
    StandingPatched(cpu, m);
    OwnIsPlanted(cpu, m, next);
    DisabledPlaces(cpu, m, d);
    UserStopIsStopsAt(m, d, next);
    var user := UserStop(m, d.list, next, 0);
    assert d.IsUser(user) && next as int in d.plants;
    UserStopReadies(cpu, m, d, user, resumeOnce, numSteps);
  }

  /** Planting a temporary breakpoint, also where a user breakpoint of another scope stands. */
  lemma EnablePlants(cpu: Cpu, d: State, entry: BreakEntry) returns (s: State, saved: BreakEntry)
    requires Patched(d.raw, d.base, d.plants) && Places(cpu, d.plants)
    requires Place(cpu, entry.address, entry.mode) && Mapped(d.base, entry.address, BreakSize(entry.mode))
    requires HandleId(entry) in d.threads
    requires AlreadySet(d.list, entry.address) ==> entry.address in d.plants
    ensures Enable(d, entry, true) == (s, saved, ErrNone)
    ensures saved == entry.(instruction := saved.instruction)
    ensures s == d.(raw := s.raw, plants := s.plants) && s.plants.Keys == d.plants.Keys + {entry.address as int}
    ensures Places(cpu, s.plants) && Patched(s.raw, s.base, s.plants)
  {
    PlaceFits(cpu, d.plants, entry.address, entry.mode);
    PlantKeepsPatched(d.raw, d.base, d.plants, entry.address, entry.mode);
    hide Patched;
    hide SameOrApart;
    s, saved := Enable(d, entry, true).0, Enable(d, entry, true).1;
    if AlreadySet(d.list, entry.address) {
      assert d.plants.Keys == d.plants.Keys + {entry.address as int};
    } else {
      assert s.plants == d.plants[entry.address := PlantOver(d.base, entry.address, entry.mode)];
      PlacesWith(cpu, d.plants, entry.address, PlantOver(d.base, entry.address, entry.mode));
    }
  }

  lemma PlacesWith(cpu: Cpu, plants: Plants, address: int, plant: Plant)
    ensures Places(cpu, plants) && Place(cpu, address, plant.mode) ==> Places(cpu, plants[address := plant])
  {
    hide Place;
  }

  lemma TempReadies(cpu: Cpu, m: Machine, d: State, s: State, entry: BreakEntry, resumeOnce: bool, numSteps: int)
    requires Disabled(m, d) && TempsFree(m.s) && !StopsAt(m, cpu.next(m.pc))
    requires entry == StepEntry(cpu, m, m.s.list[0], cpu.next(m.pc), resumeOnce, numSteps).(instruction := entry.instruction)
    requires s == d.(list := d.list[0 := entry], raw := s.raw, plants := s.plants)
    requires s.plants.Keys == d.plants.Keys + {cpu.next(m.pc) as int}
    requires Places(cpu, s.plants) && Patched(s.raw, s.base, s.plants)
    ensures Ready(cpu, m, s, resumeOnce, numSteps)
  {
    hide Patched;
    hide Places;
    hide StopsAt;
  }

  /** A user breakpoint that counts as set at the successor is planted there. */
  lemma SetIsPlanted(cpu: Cpu, m: Machine, d: State, entry: BreakEntry, list: seq<BreakEntry>)
    requires Standing(cpu, m) && Disabled(m, d) && list == d.list[0 := entry]
    requires AlreadySet(list, entry.address)
    ensures entry.address in d.plants
  {
    hide Standing;
    hide Patched;
    StandingPatched(cpu, m);
    var i :| TEMP_BREAKS <= i < |list| && list[i].address == entry.address && !list[i].disabledForStep;
    assert m.s.IsUser(i) && d.IsUser(i) && d.list[i] == list[i];
    StandingUser(cpu, m, i);
    assert entry.address != m.pc;
  }

  lemma FirstIsFree(cpu: Cpu, m: Machine, d: State)
    ensures Standing(cpu, m) && Disabled(m, d) ==> FreeTemp(d.list, 0) == 0 && d.list[0] == m.s.list[0]
  {
    if Standing(cpu, m) && Disabled(m, d) {
      StandingPatched(cpu, m);
      hide Standing;
      hide Patched;
      assert d.list[0] == m.s.list[0];
      assert m.s.list[0].breakId == 0;
      assert m.s.list[0].address == 0;
    }
  }

  lemma PlantForTemp(cpu: Cpu, m: Machine, d: State, resumeOnce: bool, numSteps: int)
    requires Standing(cpu, m) && CanStep(cpu, m, m.pc) && Disabled(m, d) && !StopsAt(m, cpu.next(m.pc))
    ensures var (s, err) := PlantStop(cpu, m, d, cpu.next(m.pc), resumeOnce, numSteps);
      err == ErrNone && Ready(cpu, m, s, resumeOnce, numSteps)
  {
    var next := cpu.next(m.pc);
    hide Patched;
    hide Place;
    hide Places;
    hide Ready;
    hide StopsAt;
    hide AlreadySet;
    hide Enable;
    StandingPatched(cpu, m);
    assert ThreadLives(m);
    hide Standing;
    UserStopIsStopsAt(m, d, next);
    FirstIsFree(cpu, m, d);
    DisabledPlaces(cpu, m, d);
    var entry := StepEntry(cpu, m, d.list[0], next, resumeOnce, numSteps);
    var filled := d.(list := d.list[0 := entry]);
    if AlreadySet(filled.list, next) {
      SetIsPlanted(cpu, m, d, entry, filled.list);
    }
    var s, saved := EnablePlants(cpu, filled, entry);
    var done := s.(list := s.list[0 := saved]);
    assert done.list == d.list[0 := saved];
    TempReadies(cpu, m, d, done, saved, resumeOnce, numSteps);
  }

  /** A step request off an address that can be stepped from readies the thread for one step. */
  lemma StepStarts(cpu: Cpu, m: Machine, resumeOnce: bool, numSteps: int) returns (s: State)
    requires Standing(cpu, m) && CanStep(cpu, m, m.pc)
    ensures StepRange(cpu, m, resumeOnce, numSteps) == (Resumed(m.(s := s)), ErrNone)
    ensures Ready(cpu, m, s, resumeOnce, numSteps)
  {
    hide Standing;
    hide CanStep;
    hide Disabled;
    hide Ready;
    hide StopsAt;
    hide DisableAt;
    hide PlantStop;
    var d := DisableWorks(cpu, m);
    s := PlantStop(cpu, m, d, cpu.next(m.pc), resumeOnce, numSteps).0;
    if StopsAt(m, cpu.next(m.pc)) {
      PlantForUser(cpu, m, d, resumeOnce, numSteps);
    } else {
      PlantForTemp(cpu, m, d, resumeOnce, numSteps);
    }
  }

  // ---------------------------------------------------------------- executing the instruction

  /** Where nothing is planted, a place holds what the base holds. */
  lemma FreePlaceHoldsBase(cpu: Cpu, s: State, address: int, mode: Mode)
    requires Patched(s.raw, s.base, s.plants) && Places(cpu, s.plants) && Place(cpu, address, mode)
    requires address !in s.plants && Mapped(s.base, address, BreakSize(mode))
    ensures Mapped(s.raw, address, BreakSize(mode))
    ensures Peek(s.raw, address, BreakSize(mode)) == Peek(s.base, address, BreakSize(mode))
  {
    hide Place;
    PlaceFits(cpu, s.plants, address, mode);
    assert Supported(mode) by {
      PlaceIsSupported(cpu, address, mode);
    }
    FreeLocation(s.raw, s.base, s.plants, address, mode);
  }

  lemma PlaceIsSupported(cpu: Cpu, address: int, mode: Mode)
    ensures Place(cpu, address, mode) ==> Supported(mode) && mode == ModeAt(cpu, address)
  {
  }

  /** With nothing planted there, ordinary code executes. */
  lemma OrdinaryExecutes(cpu: Cpu, m: Machine, s: State)
    requires Patched(s.raw, s.base, s.plants) && Places(cpu, s.plants)
    requires Ordinary(cpu, s.base, m.pc) && m.pc as int !in s.plants
    ensures !BreakUnderPc(cpu, m.(s := s))
  {
    hide Patched;
    hide Places;
    FreePlaceHoldsBase(cpu, s, m.pc, ModeAt(cpu, m.pc));
  }

  lemma ReadyExecutes(cpu: Cpu, m: Machine, s: State, resumeOnce: bool, numSteps: int)
    requires CanStep(cpu, m, m.pc) && Ready(cpu, m, s, resumeOnce, numSteps)
    requires cpu.next(m.pc) != m.pc
    ensures !BreakUnderPc(cpu, m.(s := s))
  {
    hide Patched;
    hide Places;
    hide Ordinary;
    OrdinaryExecutes(cpu, m, s);
  }

  lemma PlantedIsHit(cpu: Cpu, m: Machine, s: State)
    requires Patched(s.raw, s.base, s.plants) && Places(cpu, s.plants) && m.pc as int in s.plants
    ensures BreakUnderPc(cpu, m.(s := s))
  {
    hide Recorded;
    var mode := s.plants[m.pc].mode;
    assert Place(cpu, m.pc, mode);
    assert Mapped(s.base, m.pc, BreakSize(mode));
    forall k | 0 <= k < BreakSize(mode) ensures Peek(s.raw, m.pc, BreakSize(mode))[k] == BreakBytes(mode)[k] {
      assert Covers(m.pc, mode, m.pc + k);
    }
  }

  lemma ReadyHits(cpu: Cpu, m: Machine, s: State, resumeOnce: bool, numSteps: int)
    ensures Ready(cpu, m, s, resumeOnce, numSteps) ==> BreakUnderPc(cpu, m.(s := s, pc := cpu.next(m.pc)))
  {
    hide Patched;
    hide Places;
    if Ready(cpu, m, s, resumeOnce, numSteps) {
      assert cpu.next(m.pc) as int in s.plants.Keys;
      PlantedIsHit(cpu, m.(pc := cpu.next(m.pc)), s);
    }
  }

  // ---------------------------------------------------------------- the exception handler

  lemma {:induction false} HitMeaning(m: Machine, i: nat)
    ensures var k := HitEntry(m, i);
      k == -1 || (i <= k < |m.s.list| && m.s.list[k].address == m.pc && InScope(m.s.list[k], m.threadId, m.processId))
    ensures HitEntry(m, i) == -1 ==>
      forall j :: i <= j < |m.s.list| && m.s.list[j].address == m.pc ==> !InScope(m.s.list[j], m.threadId, m.processId)
    decreases |m.s.list| - i
  {
    if i >= |m.s.list| {
    } else {
      HitMeaning(m, i + 1);
    }
  }

  /** The entry waits to be enabled again for the thread. */
  predicate Waits(entry: BreakEntry, threadId: nat, processId: nat) {
    entry.disabledForStep && InScope(entry, threadId, processId)
  }

  ghost predicate Restorable(cpu: Cpu, s: State, entry: BreakEntry) {
    && Place(cpu, entry.address, entry.mode)
    && HandleId(entry) in s.threads
    && Mapped(s.base, entry.address, BreakSize(entry.mode))
  }

  /** What re-enabling needs of the list: one user breakpoint to an address, each at a live, mapped place. */
  ghost predicate Enableable(cpu: Cpu, s: State) {
    && (forall i :: s.IsUser(i) ==> Restorable(cpu, s, s.list[i]))
    && OneToAnAddress(s)
  }

  ghost predicate WaitsAt(s: State, threadId: nat, processId: nat, address: int) {
    exists i :: s.IsUser(i) && s.list[i].address == address && Waits(s.list[i], threadId, processId)
  }

  /** More breakpoints planted, all of them waiting for the thread. */
  ghost predicate MorePlanted(cpu: Cpu, s: State, threadId: nat, processId: nat, after: State) {
    && after == s.(raw := after.raw, plants := after.plants)
    && Patched(after.raw, after.base, after.plants)
    && Places(cpu, after.plants)
    && s.plants.Keys <= after.plants.Keys
    && (forall p :: p in after.plants.Keys ==> p in s.plants.Keys || WaitsAt(s, threadId, processId, p))
  }

  lemma WaitingIsNotSet(s: State, threadId: nat, processId: nat, i: nat)
    requires OneToAnAddress(s) && s.IsUser(i) && Waits(s.list[i], threadId, processId)
    ensures !AlreadySet(s.list, s.list[i].address) && WaitsAt(s, threadId, processId, s.list[i].address)
  {
    forall j | TEMP_BREAKS <= j < |s.list| && j != i ensures s.list[j].address != s.list[i].address {
      assert s.IsUser(j);
    }
  }

  lemma EnablesOne(s: State, entry: BreakEntry)
    requires HandleId(entry) in s.threads && Mapped(s.raw, entry.address, BreakSize(entry.mode)) && Supported(entry.mode)
    requires !AlreadySet(s.list, entry.address)
    ensures Enable(s, entry, false) == (ModifyCode(s, entry.address, entry.mode), entry, ErrNone)
  {
  }

  lemma EnableOne(cpu: Cpu, s: State, threadId: nat, processId: nat, i: nat) returns (after: State)
    requires Enableable(cpu, s) && Patched(s.raw, s.base, s.plants) && Places(cpu, s.plants)
    requires s.IsUser(i) && Waits(s.list[i], threadId, processId)
    ensures Enable(s, s.list[i], false) == (after, s.list[i], ErrNone)
    ensures MorePlanted(cpu, s, threadId, processId, after) && s.list[i].address in after.plants
  {
    hide Patched;
    hide Places;
    hide Place;
    hide OneToAnAddress;
    hide AlreadySet;
    hide Enable;
    var e := s.list[i];
    assert Restorable(cpu, s, e);
    PlaceIsSupported(cpu, e.address, e.mode);
    PlaceFits(cpu, s.plants, e.address, e.mode);
    PlantKeepsPatched(s.raw, s.base, s.plants, e.address, e.mode);
    WaitingIsNotSet(s, threadId, processId, i);
    EnablesOne(s, e);
    after := ModifyCode(s, e.address, e.mode);
    PlacesWith(cpu, s.plants, e.address, PlantOver(s.base, e.address, e.mode));
    hide WaitsAt;
  }

  lemma WaitsStill(s: State, mid: State, threadId: nat, processId: nat, p: int)
    ensures mid.list == s.list && WaitsAt(mid, threadId, processId, p) ==> WaitsAt(s, threadId, processId, p)
  {
    if mid.list == s.list && WaitsAt(mid, threadId, processId, p) {
      var i :| mid.IsUser(i) && mid.list[i].address == p && Waits(mid.list[i], threadId, processId);
      assert s.IsUser(i) && s.list[i].address == p;
    }
  }

  lemma MorePlantedTwice(cpu: Cpu, s: State, threadId: nat, processId: nat, mid: State, after: State)
    requires MorePlanted(cpu, s, threadId, processId, mid) && MorePlanted(cpu, mid, threadId, processId, after)
    ensures MorePlanted(cpu, s, threadId, processId, after)
  {
    hide Patched;
    hide Places;
    hide WaitsAt;
    forall p | p in after.plants.Keys ensures p in s.plants.Keys || WaitsAt(s, threadId, processId, p) {
      if p !in mid.plants.Keys {
        WaitsStill(s, mid, threadId, processId, p);
      }
    }
  }

  lemma {:induction false} EnableDisabledPlants(cpu: Cpu, s: State, threadId: nat, processId: nat, i: nat)
    requires Enableable(cpu, s) && Patched(s.raw, s.base, s.plants) && Places(cpu, s.plants)
    requires TEMP_BREAKS <= i
    ensures var after := EnableDisabled(s, threadId, processId, i);
      && MorePlanted(cpu, s, threadId, processId, after)
      && (forall k :: i <= k < |s.list| && Waits(s.list[k], threadId, processId) ==> s.list[k].address in after.plants.Keys)
    decreases |s.list| - i
  {
    hide Patched;
    hide Places;
    hide Enable;
    hide Enableable;
    hide WaitsAt;
    if i >= |s.list| {
    } else if Waits(s.list[i], threadId, processId) {
      var mid := EnableOne(cpu, s, threadId, processId, i);
      EnableableAgain(cpu, s, mid);
      EnableDisabledPlants(cpu, mid, threadId, processId, i + 1);
      MorePlantedTwice(cpu, s, threadId, processId, mid, EnableDisabled(mid, threadId, processId, i + 1));
    } else {
      EnableDisabledPlants(cpu, s, threadId, processId, i + 1);
    }
  }

  lemma EnableableAgain(cpu: Cpu, s: State, after: State)
    requires Enableable(cpu, s) && after == s.(raw := after.raw, plants := after.plants)
    ensures Enableable(cpu, after)
  {
    forall i | after.IsUser(i) ensures Restorable(cpu, after, after.list[i]) {
      assert s.IsUser(i) && Restorable(cpu, s, s.list[i]);
    }
    forall i, j | after.IsUser(i) && after.IsUser(j) && i != j ensures after.list[i].address != after.list[j].address {
      assert s.IsUser(i) && s.IsUser(j);
    }
  }

  lemma ReadyPatched(cpu: Cpu, m: Machine, s: State, resumeOnce: bool, numSteps: int)
    ensures Ready(cpu, m, s, resumeOnce, numSteps) ==> Patched(s.raw, s.base, s.plants) && Places(cpu, s.plants)
    ensures Ready(cpu, m, s, resumeOnce, numSteps) ==>
      s.plants.Keys == m.s.plants.Keys - {m.pc as int} + {cpu.next(m.pc) as int}
    ensures Ready(cpu, m, s, resumeOnce, numSteps) ==> s == m.s.(list := s.list, raw := s.raw, plants := s.plants)
  {
    hide Patched;
    hide Places;
  }

  lemma ReadyMarks(cpu: Cpu, m: Machine, s: State, resumeOnce: bool, numSteps: int)
    ensures Ready(cpu, m, s, resumeOnce, numSteps) ==> SameEntries(m.s.list, s.list)
    ensures Ready(cpu, m, s, resumeOnce, numSteps) ==>
      forall i :: s.IsUser(i) && s.list[i].address == m.pc ==> s.list[i].disabledForStep
  {
    hide Patched;
    hide Places;
    hide StopsAt;
  }

  lemma RestorableUser(cpu: Cpu, m: Machine, s: State, i: nat)
    requires Standing(cpu, m) && m.s.IsUser(i) && SameEntries(m.s.list, s.list)
    requires s == m.s.(list := s.list, raw := s.raw, plants := s.plants)
    ensures Restorable(cpu, s, s.list[i])
  {
    StandingUser(cpu, m, i);
    hide Standing;
    hide Place;
  }

  lemma ReadyIsEnableable(cpu: Cpu, m: Machine, s: State, resumeOnce: bool, numSteps: int)
    requires Standing(cpu, m) && Ready(cpu, m, s, resumeOnce, numSteps)
    ensures Enableable(cpu, s)
  {
    hide Standing;
    hide Ready;
    StandingPatched(cpu, m);
    ReadyPatched(cpu, m, s, resumeOnce, numSteps);
    ReadyMarks(cpu, m, s, resumeOnce, numSteps);
    hide Patched;
    hide Places;
    hide Ordered;
    hide TempsFree;
    hide Restorable;
    forall i | s.IsUser(i) ensures Restorable(cpu, s, s.list[i]) {
      RestorableUser(cpu, m, s, i);
    }
    OneToAnAddressAgain(m, m.(s := s));
  }

  /** After re-enabling, the kept user breakpoints are planted, and besides them only the successor. */
  ghost predicate Reenabled(cpu: Cpu, m: Machine, s: State, e: State) {
    && e == s.(raw := e.raw, plants := e.plants)
    && e.plants.Keys == Kept(m) + {cpu.next(m.pc) as int}
    && Places(cpu, e.plants)
    && Patched(e.raw, e.base, e.plants)
  }

  lemma ReadyReenables(cpu: Cpu, m: Machine, s: State, resumeOnce: bool, numSteps: int) returns (e: State)
    requires Standing(cpu, m) && Ready(cpu, m, s, resumeOnce, numSteps)
    ensures e == EnableDisabled(s, m.threadId, m.processId, TEMP_BREAKS)
    ensures Reenabled(cpu, m, s, e)
  {
    hide Patched;
    hide Standing;
    hide Ready;
    hide Places;
    hide Kept;
    hide EnableDisabled;
    hide Enableable;
    hide WaitsAt;
    e := EnableDisabled(s, m.threadId, m.processId, TEMP_BREAKS);
    ReadyIsEnableable(cpu, m, s, resumeOnce, numSteps);
    ReadyPatched(cpu, m, s, resumeOnce, numSteps);
    EnableDisabledPlants(cpu, s, m.threadId, m.processId, TEMP_BREAKS);
    ReenabledKeys(cpu, m, s, e, resumeOnce, numSteps);
  }

  /** The thread's own breakpoint under the program counter is planted again. */
  lemma OwnWaits(cpu: Cpu, m: Machine, s: State, resumeOnce: bool, numSteps: int) returns (k: nat)
    requires Standing(cpu, m) && Ready(cpu, m, s, resumeOnce, numSteps)
    requires NoneForeign(m, m.pc) && m.pc as int in m.s.plants.Keys
    ensures s.IsUser(k) && s.list[k].address == m.pc && Waits(s.list[k], m.threadId, m.processId)
  {
    StandingPatched(cpu, m);
    hide Standing;
    hide Patched;
    hide Places;
    hide StopsAt;
    assert UserAt(m.s, m.pc);
    k :| m.s.IsUser(k) && m.s.list[k].address == m.pc;
    assert s.IsUser(k);
  }

  lemma KeptIsReenabled(cpu: Cpu, m: Machine, s: State, e: State, resumeOnce: bool, numSteps: int, p: int)
    requires Standing(cpu, m) && Ready(cpu, m, s, resumeOnce, numSteps)
    requires s.plants.Keys <= e.plants.Keys
    requires forall k :: TEMP_BREAKS <= k < |s.list| && Waits(s.list[k], m.threadId, m.processId) ==>
      s.list[k].address in e.plants.Keys
    requires p in Kept(m)
    ensures p in e.plants.Keys
  {
    hide Standing;
    hide Ready;
    hide NoneForeign;
    ReadyPatched(cpu, m, s, resumeOnce, numSteps);
    if p == m.pc {
      var k := OwnWaits(cpu, m, s, resumeOnce, numSteps);
    }
  }

  lemma WaitingIsKept(cpu: Cpu, m: Machine, s: State, resumeOnce: bool, numSteps: int, p: int)
    requires Standing(cpu, m) && Ready(cpu, m, s, resumeOnce, numSteps)
    requires WaitsAt(s, m.threadId, m.processId, p)
    ensures p in Kept(m)
  {
    hide Standing;
    hide Ready;
    hide NoneForeign;
    StandingPatched(cpu, m);
    ReadyMarks(cpu, m, s, resumeOnce, numSteps);
    hide Patched;
    hide Ordered;
    hide TempsFree;
    var k :| s.IsUser(k) && s.list[k].address == p && Waits(s.list[k], m.threadId, m.processId);
    assert m.s.IsUser(k) && InScope(m.s.list[k], m.threadId, m.processId);
    StandingUser(cpu, m, k);
    OwnAlone(m, k);
  }

  lemma ReenabledKeys(cpu: Cpu, m: Machine, s: State, e: State, resumeOnce: bool, numSteps: int)
    requires Standing(cpu, m) && Ready(cpu, m, s, resumeOnce, numSteps)
    requires MorePlanted(cpu, s, m.threadId, m.processId, e)
    requires forall k :: TEMP_BREAKS <= k < |s.list| && Waits(s.list[k], m.threadId, m.processId) ==>
      s.list[k].address in e.plants.Keys
    ensures e.plants.Keys == Kept(m) + {cpu.next(m.pc) as int}
  {
    hide Standing;
    hide Patched;
    hide Places;
    hide Ready;
    hide WaitsAt;
    hide NoneForeign;
    ReadyPatched(cpu, m, s, resumeOnce, numSteps);
    forall p | p in Kept(m) ensures p in e.plants.Keys {
      KeptIsReenabled(cpu, m, s, e, resumeOnce, numSteps, p);
    }
    forall p | p in e.plants.Keys ensures p in Kept(m) || p == cpu.next(m.pc) {
      if p !in s.plants.Keys {
        WaitingIsKept(cpu, m, s, resumeOnce, numSteps, p);
      }
    }
  }

  /** The thread, suspended at the successor: no temporary breakpoint left, the kept ones planted. */
  ghost predicate StoppedAtNext(cpu: Cpu, m: Machine, after: Machine) {
    && SameUsers(m, after) && TempsFree(after.s)
    && after.pc == cpu.next(m.pc) && after.suspends == 1 && after.events == m.events
    && after.s.plants.Keys == Arrived(cpu, m)
    && Places(cpu, after.s.plants)
    && Patched(after.s.raw, after.s.base, after.s.plants)
    && (forall i :: after.s.IsUser(i) && after.s.list[i].address == m.pc ==> after.s.list[i].disabledForStep)
  }

  /** The handler's outcome, by the entry that was hit. */
  lemma HandleBreakAt(cpu: Cpu, hit: Machine, k: nat, e: State)
    requires HitEntry(hit, 0) == k && k < |hit.s.list|
    requires hit.threadId in hit.s.threads && e == EnableDisabled(hit.s, hit.threadId, hit.processId, TEMP_BREAKS)
    ensures var entry := hit.s.list[k];
      HandleBreak(cpu, hit) ==
        if entry.breakId < TEMP_BREAKS then
          AfterTemp(cpu, Suspended(hit).(s := ClearBreak(e, entry.breakId, false).0),
                    KindOf(entry), entry.resumeOnce, entry.numSteps - 1)
        else Notified(Suspended(hit).(s := e), KindOf(entry))
  {
    hide AfterTemp;
    hide ClearBreak;
    hide EnableDisabled;
  }

  lemma ReadyThread(cpu: Cpu, m: Machine, s: State, resumeOnce: bool, numSteps: int)
    ensures Standing(cpu, m) && Ready(cpu, m, s, resumeOnce, numSteps) ==> m.threadId in s.threads
  {
    hide Patched;
  }

  lemma ReadySlots(cpu: Cpu, m: Machine, s: State, resumeOnce: bool, numSteps: int)
    ensures Ready(cpu, m, s, resumeOnce, numSteps) && StopsAt(m, cpu.next(m.pc)) ==>
      TempsFree(s) && SameEntries(m.s.list, s.list)
  {
    hide Patched;
    hide Places;
    hide StopsAt;
  }

  /** A stop of the thread's own is hit as a user entry. */
  lemma HitsUser(m: Machine, s: State, address: Address)
    requires Ordered(m.s) && OneToAnAddress(m.s) && SameEntries(m.s.list, s.list) && TempsFree(s)
    requires address != 0 && StopsAt(m, address)
    ensures var k := HitEntry(m.(s := s, pc := address, suspends := 0), 0);
      s.IsUser(k) && s.list[k].breakId >= TEMP_BREAKS && KindOf(s.list[k]) == Reason(m, address)
  {
    var hit := m.(s := s, pc := address, suspends := 0);
    HitMeaning(hit, 0);
    UserIds(m.s, s.list);
    var i :| m.s.IsUser(i) && m.s.list[i].address == address && InScope(m.s.list[i], m.threadId, m.processId);
    assert s.list[i].address == address && InScope(s.list[i], m.threadId, m.processId);
    var k := HitEntry(hit, 0);
    hide HitEntry;
    assert m.s.IsUser(k);
    assert Reason(m, m.s.list[k].address) == if m.s.list[k].threadSpecific then ThreadBreak else ProcessBreak;
  }

  lemma UserHitEntry(cpu: Cpu, m: Machine, s: State, resumeOnce: bool, numSteps: int) returns (k: nat)
    requires Standing(cpu, m) && CanStep(cpu, m, m.pc) && Ready(cpu, m, s, resumeOnce, numSteps)
    requires StopsAt(m, cpu.next(m.pc))
    ensures s.IsUser(k) && s.list[k].breakId >= TEMP_BREAKS && KindOf(s.list[k]) == Reason(m, cpu.next(m.pc))
    ensures HitEntry(m.(s := s, pc := cpu.next(m.pc), suspends := 0), 0) == k
    ensures UserAt(m.s, cpu.next(m.pc)) && TempsFree(s)
  {
    hide Standing;
    hide Ready;
    hide StopsAt;
    hide UserAt;
    hide HitEntry;
    hide Reason;
    hide OneToAnAddress;
    hide Ordered;
    hide SameEntries;
    hide TempsFree;
    StandingPatched(cpu, m);
    OwnIsPlanted(cpu, m, cpu.next(m.pc));
    ReadySlots(cpu, m, s, resumeOnce, numSteps);
    HitsUser(m, s, cpu.next(m.pc));
    k := HitEntry(m.(s := s, pc := cpu.next(m.pc), suspends := 0), 0);
  }

  /** Where a user breakpoint stops the thread, the handler reports it and leaves it planted. */
  lemma UserHitStops(cpu: Cpu, m: Machine, s: State, resumeOnce: bool, numSteps: int)
    returns (after: Machine)
    requires Standing(cpu, m) && CanStep(cpu, m, m.pc) && Ready(cpu, m, s, resumeOnce, numSteps)
    requires StopsAt(m, cpu.next(m.pc))
    ensures HandleBreak(cpu, m.(s := s, pc := cpu.next(m.pc), suspends := 0)) == Notified(after, Reason(m, cpu.next(m.pc)))
    ensures StoppedAtNext(cpu, m, after)
  {
    hide Reason;
    hide Standing;
    hide CanStep;
    hide Patched;
    hide Places;
    hide Kept;
    hide HandleBreak;
    hide StopsAt;
    hide Ready;
    hide UserAt;
    hide SameEntries;
    hide EnableDisabled;
    var hit := m.(s := s, pc := cpu.next(m.pc), suspends := 0);
    ReadyThread(cpu, m, s, resumeOnce, numSteps);
    ReadyPatched(cpu, m, s, resumeOnce, numSteps);
    ReadyMarks(cpu, m, s, resumeOnce, numSteps);
    var e := ReadyReenables(cpu, m, s, resumeOnce, numSteps);
    var k := UserHitEntry(cpu, m, s, resumeOnce, numSteps);
    HandleBreakAt(cpu, hit, k, e);
    after := Suspended(hit).(s := e);
  }

  lemma TempHitEntry(cpu: Cpu, m: Machine, s: State, resumeOnce: bool, numSteps: int)
    requires Standing(cpu, m) && Ready(cpu, m, s, resumeOnce, numSteps) && !StopsAt(m, cpu.next(m.pc))
    ensures HitEntry(m.(s := s, pc := cpu.next(m.pc), suspends := 0), 0) == 0
    ensures s.list[0].breakId == 0 && KindOf(s.list[0]) == ThreadBreak && HandleId(s.list[0]) == m.threadId
    ensures s.list[0].address == cpu.next(m.pc) && s.list[0].mode == ModeAt(cpu, cpu.next(m.pc))
    ensures s.list[0].resumeOnce == resumeOnce && s.list[0].numSteps == numSteps
    ensures forall i :: 1 <= i < TEMP_BREAKS ==> s.list[i].address == 0
  {
    StandingPatched(cpu, m);
    hide Standing;
    hide Patched;
    hide Places;
    assert m.s.list[0].breakId == 0;
    assert InScope(s.list[0], m.threadId, m.processId);
  }

  lemma ClearSlotZero(e: State)
    requires |e.list| > 0 && e.list[0].breakId == 0 && HandleId(e.list[0]) in e.threads
    ensures ClearBreak(e, 0, false).0
      == (if OverlappedByOther(e.list, 0) then e else RestoreCode(e, e.list[0].address)).(list := e.list[0 := Cleared(e.list[0])])
  {
    assert Find(e.list, 0, 0) == 0;
  }

  lemma UnplantNext(cpu: Cpu, m: Machine, e: State) returns (r: State)
    requires Standing(cpu, m)
    requires Patched(e.raw, e.base, e.plants) && Places(cpu, e.plants)
    requires e.plants.Keys == Kept(m) + {cpu.next(m.pc) as int}
    ensures r == if UserAt(m.s, cpu.next(m.pc)) then e else RestoreCode(e, cpu.next(m.pc))
    ensures r == e.(raw := r.raw, plants := r.plants) && r.plants.Keys == Arrived(cpu, m)
    ensures Patched(r.raw, r.base, r.plants) && Places(cpu, r.plants)
  {
    StandingPatched(cpu, m);
    hide Standing;
    hide Patched;
    hide Place;
    hide NoneForeign;
    var next := cpu.next(m.pc);
    r := if UserAt(m.s, next) then e else RestoreCode(e, next);
    if !UserAt(m.s, next) {
      assert next as int in e.plants.Keys && next as int !in m.s.plants;
      RestoreKeepsPatched(e.raw, e.base, e.plants, next);
      hide UserAt;
      hide OnlyUsersPlanted;
      assert r.plants == e.plants - {next as int};
      assert (Kept(m) + {next as int}) - {next as int} == Kept(m);
    }
  }

  lemma UserOverlaps(cpu: Cpu, m: Machine, s: State, i: nat)
    requires Standing(cpu, m) && CanStep(cpu, m, m.pc) && m.s.IsUser(i) && SameEntries(m.s.list, s.list)
    ensures Overlap(cpu.next(m.pc), ModeAt(cpu, cpu.next(m.pc)), s.list[i].address, s.list[i].mode)
      <==> s.list[i].address == cpu.next(m.pc)
  {
    StandingUser(cpu, m, i);
    hide Standing;
    hide StopsAt;
    hide Overlap;
    var next, mode := cpu.next(m.pc), ModeAt(cpu, cpu.next(m.pc));
    var e := m.s.list[i];
    assert Place(cpu, next, mode) && Place(cpu, e.address, e.mode);
    OverlapIsIntersection(next, mode, e.address, e.mode);
    PlacesApart(cpu, next, mode, e.address, e.mode);
  }

  lemma TempOverlap(cpu: Cpu, m: Machine, s: State, resumeOnce: bool, numSteps: int)
    requires Standing(cpu, m) && CanStep(cpu, m, m.pc) && Ready(cpu, m, s, resumeOnce, numSteps)
    requires !StopsAt(m, cpu.next(m.pc))
    ensures |s.list| > 0 && (OverlappedByOther(s.list, 0) <==> UserAt(m.s, cpu.next(m.pc)))
  {
    var next := cpu.next(m.pc);
    ReadyMarks(cpu, m, s, resumeOnce, numSteps);
    TempHitEntry(cpu, m, s, resumeOnce, numSteps);
    hide Standing;
    hide CanStep;
    hide Ready;
    hide Overlap;
    forall i | m.s.IsUser(i)
      ensures Overlap(next, ModeAt(cpu, next), s.list[i].address, s.list[i].mode) <==> s.list[i].address == next
    {
      UserOverlaps(cpu, m, s, i);
    }
    if UserAt(m.s, next) {
      var i :| m.s.IsUser(i) && m.s.list[i].address == next;
      assert s.list[i].address == next;
    }
    if OverlappedByOther(s.list, 0) {
      var i :| TEMP_BREAKS <= i < |s.list| && Overlap(next, ModeAt(cpu, next), s.list[i].address, s.list[i].mode);
      assert m.s.IsUser(i) && m.s.list[i].address == next;
    }
  }

  lemma SlotZeroFree(before: seq<BreakEntry>, list: seq<BreakEntry>, cleared: State)
    requires SameEntries(before, list) && |list| >= TEMP_BREAKS && cleared.list == list[0 := Cleared(list[0])]
    requires forall i :: 1 <= i < TEMP_BREAKS ==> list[i].address == 0
    ensures SameEntries(before, cleared.list) && TempsFree(cleared)
  {
  }

  lemma ClearTemp(cpu: Cpu, m: Machine, s: State, e: State, resumeOnce: bool, numSteps: int) returns (cleared: State)
    requires Standing(cpu, m) && CanStep(cpu, m, m.pc) && Ready(cpu, m, s, resumeOnce, numSteps)
    requires !StopsAt(m, cpu.next(m.pc)) && Reenabled(cpu, m, s, e)
    requires m.threadId in e.threads
    ensures cleared == ClearBreak(e, 0, false).0
    ensures cleared == m.s.(list := cleared.list, raw := cleared.raw, plants := cleared.plants)
    ensures cleared.plants.Keys == Arrived(cpu, m)
    ensures SameEntries(m.s.list, cleared.list) && TempsFree(cleared)
    ensures cleared.list == s.list[0 := Cleared(s.list[0])]
    ensures Places(cpu, cleared.plants) && Patched(cleared.raw, cleared.base, cleared.plants)
  {
    hide Standing;
    hide CanStep;
    hide Patched;
    hide Places;
    hide Kept;
    hide OverlappedByOther;
    hide ClearBreak;
    hide StopsAt;
    hide Ready;
    hide SameEntries;
    hide UserAt;
    hide TempsFree;
    ReadyMarks(cpu, m, s, resumeOnce, numSteps);
    ReadyPatched(cpu, m, s, resumeOnce, numSteps);
    TempHitEntry(cpu, m, s, resumeOnce, numSteps);
    var r := UnplantNext(cpu, m, e);
    TempOverlap(cpu, m, s, resumeOnce, numSteps);
    ClearSlotZero(e);
    cleared := r.(list := e.list[0 := Cleared(e.list[0])]);
    StandingTemps(cpu, m, s);
    SlotZeroFree(m.s.list, s.list, cleared);
  }

  lemma StandingTemps(cpu: Cpu, m: Machine, s: State)
    ensures Standing(cpu, m) && SameEntries(m.s.list, s.list) ==> |s.list| >= TEMP_BREAKS
  {
    hide Patched;
  }

  /** Where the temporary breakpoint stops the thread, the handler clears it before going on. */
  lemma TempHitClears(cpu: Cpu, m: Machine, s: State, resumeOnce: bool, numSteps: int) returns (after: Machine)
    requires Standing(cpu, m) && CanStep(cpu, m, m.pc) && Ready(cpu, m, s, resumeOnce, numSteps)
    requires !StopsAt(m, cpu.next(m.pc))
    ensures HandleBreak(cpu, m.(s := s, pc := cpu.next(m.pc), suspends := 0))
      == AfterTemp(cpu, after, ThreadBreak, resumeOnce, numSteps - 1)
    ensures StoppedAtNext(cpu, m, after)
  {
    hide Standing;
    hide CanStep;
    hide Patched;
    hide Places;
    hide HandleBreak;
    hide AfterTemp;
    hide ClearBreak;
    hide EnableDisabled;
    hide StopsAt;
    hide Arrived;
    hide Ready;
    hide SameEntries;
    var hit := m.(s := s, pc := cpu.next(m.pc), suspends := 0);
    ReadyThread(cpu, m, s, resumeOnce, numSteps);
    ReadyPatched(cpu, m, s, resumeOnce, numSteps);
    ReadyMarks(cpu, m, s, resumeOnce, numSteps);
    var e := ReadyReenables(cpu, m, s, resumeOnce, numSteps);
    TempHitEntry(cpu, m, s, resumeOnce, numSteps);
    HandleBreakAt(cpu, hit, 0, e);
    var cleared := ClearTemp(cpu, m, s, e, resumeOnce, numSteps);
    after := Suspended(hit).(s := cleared);
    assert forall i :: cleared.IsUser(i) ==> s.IsUser(i) && cleared.list[i] == s.list[i];
  }

  // ---------------------------------------------------------------- after the stop

  lemma StoppedUsers(cpu: Cpu, m: Machine, after: Machine, i: nat)
    ensures Standing(cpu, m) && StoppedAtNext(cpu, m, after) && after.s.IsUser(i) ==>
      UserOk(after.s, after.s.list[i]) && UserPlaced(cpu, after.s, after.s.list[i])
  {
    if Standing(cpu, m) && StoppedAtNext(cpu, m, after) && after.s.IsUser(i) {
      assert m.s.IsUser(i);
      StandingUser(cpu, m, i);
      hide Standing;
      hide Patched;
      hide Places;
      hide Arrived;
    }
  }

  /** A user breakpoint is planted after the stop, or it is one of another scope that was lost. */
  lemma StoppedPlanted(cpu: Cpu, m: Machine, after: Machine, i: nat)
    requires Standing(cpu, m) && StoppedAtNext(cpu, m, after) && after.s.IsUser(i)
    ensures PlantedOrLost(after, after.s.list[i])
  {
    assert m.s.IsUser(i);
    StandingUser(cpu, m, i);
    StoppedUsers(cpu, m, after, i);
    StandingPatched(cpu, m);
    hide Standing;
    hide Patched;
    var e := after.s.list[i];
    if e.address in after.s.plants {
      assert Place(cpu, e.address, after.s.plants[e.address].mode);
    } else {
      assert e.address !in Kept(m);
      if e.address == m.pc {
        assert e.disabledForStep;
        if InScope(e, m.threadId, m.processId) {
          OwnAlone(m, i);
          assert false;
        }
      }
    }
  }

  lemma StoppedOnlyUsers(cpu: Cpu, m: Machine, after: Machine)
    ensures OnlyUsersPlanted(m.s) && StoppedAtNext(cpu, m, after) ==> OnlyUsersPlanted(after.s)
  {
    hide Patched;
    hide Places;
    hide TempsFree;
    hide SameUsers;
    if OnlyUsersPlanted(m.s) && StoppedAtNext(cpu, m, after) {
      forall a | a in after.s.plants ensures UserAt(after.s, a) {
        assert a in Arrived(cpu, m);
        SameUserAt(m, after, a);
      }
    }
  }

  lemma StoppedList(cpu: Cpu, m: Machine, after: Machine)
    ensures Standing(cpu, m) && StoppedAtNext(cpu, m, after) ==> ListOk(after.s) && UsersPlaced(cpu, after.s)
  {
    if Standing(cpu, m) && StoppedAtNext(cpu, m, after) {
      StandingPatched(cpu, m);
      assert Ordered(after.s) by {
        assert forall i :: 0 <= i < |after.s.list| ==> after.s.list[i].breakId == m.s.list[i].breakId;
      }
      assert after.s.raw.Keys == after.s.base.Keys;
      hide Standing;
      hide Patched;
      forall i | after.s.IsUser(i) ensures UserOk(after.s, after.s.list[i]) && UserPlaced(cpu, after.s, after.s.list[i]) {
        StoppedUsers(cpu, m, after, i);
      }
      hide StoppedAtNext;
      hide UserOk;
      hide UserPlaced;
    }
  }

  lemma StoppedThread(cpu: Cpu, m: Machine, after: Machine)
    ensures Standing(cpu, m) && StoppedAtNext(cpu, m, after) ==>
      ThreadLives(after) && (UserAt(after.s, after.pc) ==> after.pc in after.s.plants)
    ensures Standing(cpu, m) && StoppedAtNext(cpu, m, after) ==> Patched(after.s.raw, after.s.base, after.s.plants)
  {
    if Standing(cpu, m) && StoppedAtNext(cpu, m, after) {
      SameUserAt(m, after, cpu.next(m.pc));
      hide Patched;
      hide Places;
      hide UserAt;
      hide NoneForeign;
    }
  }

  /** After the stop the thread can be stepped again. */
  lemma StoppedStands(cpu: Cpu, m: Machine, after: Machine)
    requires Standing(cpu, m) && StoppedAtNext(cpu, m, after)
    ensures SameUsers(m, after) && Standing(cpu, after)
  {
    StoppedList(cpu, m, after);
    StoppedThread(cpu, m, after);
    StandingPatched(cpu, m);
    OneToAnAddressAgain(m, after);
    StoppedOnlyUsers(cpu, m, after);
    forall i | after.s.IsUser(i) ensures PlantedOrLost(after, after.s.list[i]) {
      StoppedPlanted(cpu, m, after, i);
    }
    hide ListOk;
    hide Patched;
    hide PlantedOrLost;
    hide UserAt;
    hide UsersPlaced;
    hide OneToAnAddress;
    hide OnlyUsersPlanted;
    assert AllPlantedOrLost(after);
  }

  lemma StandingIgnoresEvents(cpu: Cpu, m: Machine, after: Machine)
    requires Standing(cpu, m) && after == m.(suspends := after.suspends, events := after.events)
    ensures Standing(cpu, after)
  {
    hide ListOk;
    hide Patched;
    hide UsersPlaced;
    hide OneToAnAddress;
    hide OnlyUsersPlanted;
    forall i | after.s.IsUser(i) ensures PlantedOrLost(after, after.s.list[i]) {
      assert PlantedOrLost(m, m.s.list[i]);
    }
  }

  /** Between two standing states over the same base, the addresses planted say every byte. */
  lemma SameKeysSameCode(cpu: Cpu, m: Machine, after: Machine)
    requires Standing(cpu, m) && Standing(cpu, after) && SameUsers(m, after)
    requires after.s.plants.Keys == m.s.plants.Keys
    ensures SameBreakpoints(m, after)
  {
    StandingPlaces(cpu, m);
    StandingPlaces(cpu, after);
    StandingPatched(cpu, m);
    StandingPatched(cpu, after);
    hide Standing;
    assert Recorded(m.s.base, m.s.plants) && Recorded(m.s.base, after.s.plants);
    PlacesDetermine(cpu, m.s.base, m.s.plants, after.s.plants);
    PatchedDetermines(after.s.raw, m.s.raw, m.s.base, m.s.plants);
  }

  lemma SettledAgain(cpu: Cpu, m: Machine, after: Machine)
    requires Settled(cpu, m) && Standing(cpu, after) && SameUsers(m, after) && after.s.plants.Keys == m.s.plants.Keys
    ensures SameBreakpoints(m, after) && Settled(cpu, after)
  {
    hide Standing;
    hide Patched;
    SettledStands(cpu, m);
    SameKeysSameCode(cpu, m, after);
    forall i | after.s.IsUser(i) ensures after.s.list[i].address in after.s.plants {
      SameUser(m, after, i);
    }
    hide Settled;
    StandingSettles(cpu, after);
  }

  /** Where nothing foreign was underneath, or the step came back to it, the same addresses are planted. */
  lemma ArrivedIsAll(cpu: Cpu, m: Machine)
    ensures (Settled(cpu, m) && (NoneForeign(m, m.pc) || cpu.next(m.pc) == m.pc)) ==> Arrived(cpu, m) == m.s.plants.Keys
  {
    hide Patched;
    hide ListOk;
    hide NoneForeign;
    hide EqualOrDisjoint;
    if (Settled(cpu, m) && (NoneForeign(m, m.pc) || cpu.next(m.pc) == m.pc)) {
      assert UserAt(m.s, cpu.next(m.pc)) ==> cpu.next(m.pc) as int in m.s.plants;
      assert m.pc as int in m.s.plants ==> UserAt(m.s, m.pc);
    }
  }

  /** Stopping leaves everything as it was, unless the step lost a breakpoint of another scope. */
  lemma StoppedIsSettled(cpu: Cpu, m: Machine, after: Machine)
    requires Settled(cpu, m) && StoppedAtNext(cpu, m, after)
    requires NoneForeign(m, m.pc) || cpu.next(m.pc) == m.pc
    ensures SameBreakpoints(m, after) && Settled(cpu, after)
  {
    SettledStands(cpu, m);
    StoppedStands(cpu, m, after);
    ArrivedIsAll(cpu, m);
    hide Settled;
    hide Standing;
    hide SameUsers;
    hide Places;
    hide Patched;
    hide NoneForeign;
    SettledAgain(cpu, m, after);
  }
}
