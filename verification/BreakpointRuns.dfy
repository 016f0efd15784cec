/** What every run of set and clear calls, thread starts and thread deaths keeps: the id order of the list,
    scopes without overlap, and code memory patched exactly where some user breakpoint stands. */
module BreakpointRuns {
  import opened Wrappers
  import opened CodeMemory
  import opened Breakpoints

  datatype Request =
    | Set(id: nat, threadSpecific: bool, address: Address, mode: Mode)
    | Clear(breakId: int, ignoreTerminated: bool)
    | ThreadStarts(threadId: nat, processId: nat)
    | ThreadDies(threadId: nat)

  function Step(s: State, request: Request): State {
    match request
    case Set(id, threadSpecific, address, mode) => SetBreak(s, id, threadSpecific, address, mode).0
    case Clear(breakId, ignoreTerminated) => ClearBreak(s, breakId, ignoreTerminated).0
    case ThreadStarts(threadId, processId) => StartThread(s, threadId, processId)
    case ThreadDies(threadId) =>
      var removed := RemoveThreadBreaks(s, threadId, |s.list|);
      removed.(threads := removed.threads - {threadId})
  }

  /** The id is in use, or some breakpoint was set through the thread that had it. */
  predicate UsedThreadId(s: State, threadId: nat) {
    || threadId in s.threads
    || (exists i :: TEMP_BREAKS <= i < |s.list| && s.list[i].threadSpecific && s.list[i].id == threadId)
  }

  /** The kernel gives a new thread an id no thread had before. */
  function StartThread(s: State, threadId: nat, processId: nat): State {
    if UsedThreadId(s, threadId) then s else s.(threads := s.threads[threadId := processId])
  }

  function Run(s: State, requests: seq<Request>): State
    decreases |requests|
  {
    if requests == [] then s else Run(Step(s, requests[0]), requests[1..])
  }

  // ---------------------------------------------------------------- the signed overlap test

  /** The end of an aligned breakpoint never passes the largest signed integer. */
  lemma SignedEnd(a: Address, m: Mode)
    ensures Aligned(a, m) ==> ToInt32(a) == if a < 0x8000_0000 then a else a - ADDRESS_SPACE
    ensures Aligned(a, m) ==> ToInt32(ToInt32(a) + BreakSize(m) - 1) == ToInt32(a) + BreakSize(m) - 1
  {
    if Aligned(a, m) {
      assert a % ADDRESS_SPACE == a;
      var end := ToInt32(a) + BreakSize(m) - 1;
      assert a < 0x8000_0000 ==> end < 0x8000_0000 by {
        assert 0x8000_0000 % 4 == 0 && 0x8000_0000 % 2 == 0;
      }
      assert end < 0x8000_0000;
      assert end % ADDRESS_SPACE == if end < 0 then end + ADDRESS_SPACE else end by {
        if end < 0 {
          assert (end + ADDRESS_SPACE) % ADDRESS_SPACE == end + ADDRESS_SPACE;
        }
      }
    }
  }

  lemma OverlapIsIntersection(a: Address, m: Mode, b: Address, n: Mode)
    requires Aligned(a, m) && Aligned(b, n)
    ensures Overlap(a, m, b, n) <==> Intersect(a, m, b, n)
  {
    SignedEnd(a, m);
    SignedEnd(b, n);
    SameHalf(a, m);
    SameHalf(b, n);
  }

  /** An aligned breakpoint lies wholly in the lower or the upper half of the address space. */
  lemma SameHalf(a: Address, m: Mode)
    ensures Aligned(a, m) ==> a < 0x8000_0000 ==> a + BreakSize(m) <= 0x8000_0000
    ensures Aligned(a, m) ==> a + BreakSize(m) <= ADDRESS_SPACE
  {
  }

  /** Without alignment the end address can pass the largest signed integer: a breakpoint there
      does not even overlap itself. */
  lemma OverlapNeedsAlignment()
    ensures Intersect(0x7FFF_FFFD, Arm, 0x7FFF_FFFD, Arm) && !Overlap(0x7FFF_FFFD, Arm, 0x7FFF_FFFD, Arm)
  {
  }

  // ---------------------------------------------------------------- list order

  /** Ids 0 to 9 first, then strictly increasing ids below the next one; never a hundred entries. */
  ghost predicate Ordered(s: State) {
    && TEMP_BREAKS <= |s.list| < MAX_BREAKS
    && TEMP_BREAKS <= s.nextId
    && (forall i :: 0 <= i < TEMP_BREAKS ==> s.list[i].breakId == i)
    && (forall i, j :: 0 <= i < j < |s.list| ==> s.list[i].breakId < s.list[j].breakId)
    && (forall i :: 0 <= i < |s.list| ==> s.list[i].breakId < s.nextId)
  }

  lemma {:induction false} FindFrom(list: seq<BreakEntry>, index: nat, i: nat)
    requires forall a, b :: 0 <= a < b < |list| ==> list[a].breakId < list[b].breakId
    requires i <= index < |list|
    ensures Find(list, list[index].breakId, i) == index
    decreases index - i
  {
    if i >= index {
    } else {
      FindFrom(list, index, i + 1);
    }
  }

  lemma {:induction false} FindIsMember(list: seq<BreakEntry>, breakId: int, i: nat)
    ensures var index := Find(list, breakId, i);
      index == -1 || (i <= index < |list| && list[index].breakId == breakId)
    ensures Find(list, breakId, i) == -1 ==> forall k :: i <= k < |list| ==> list[k].breakId != breakId
    decreases |list| - i
  {
    if i >= |list| || list[i].breakId == breakId {
    } else {
      FindIsMember(list, breakId, i + 1);
    }
  }

  /** The entry after the given one in the list, the first one when none is given. */
  function NextBreak(list: seq<BreakEntry>, from: Option<BreakEntry>): Option<BreakEntry> {
    var index := if from.None? then 0 else Find(list, from.value.breakId, 0) + 1;
    if 0 <= index < |list| then Some(list[index]) else None
  }

  /** The repeated call visits the list in order: after entry i comes entry i + 1, then nothing. */
  lemma NextBreakFollowsOrder(s: State, i: nat)
    requires Ordered(s) && i < |s.list|
    ensures NextBreak(s.list, None) == Some(s.list[0])
    ensures NextBreak(s.list, Some(s.list[i])) == if i + 1 < |s.list| then Some(s.list[i + 1]) else None
  {
    FindFrom(s.list, i, 0);
  }

  /** Walks the list as every caller does; each entry is visited exactly once, in id order. */
  method Walk(list: seq<BreakEntry>) returns (visited: seq<BreakEntry>)
    requires |list| > 0
    requires forall i, j :: 0 <= i < j < |list| ==> list[i].breakId < list[j].breakId
    ensures visited == list
  {
    visited := [];
    var entry := NextBreak(list, None);
    while entry.Some?
      invariant |visited| <= |list| && visited == list[..|visited|]
      invariant entry == if |visited| < |list| then Some(list[|visited|]) else None
      decreases |list| - |visited|
    {
      FindFrom(list, |visited|, 0);
      visited := visited + [entry.value];
      entry := NextBreak(list, entry);
    }
  }

  // ---------------------------------------------------------------- state invariant

  ghost predicate UserOk(s: State, entry: BreakEntry) {
    && Supported(entry.mode)
    && Aligned(entry.address, entry.mode)
    && Mapped(s.base, entry.address, BreakSize(entry.mode))
    && |entry.instruction| == BreakSize(entry.mode)
    && (entry.address != 0 ==> HandleId(entry) in s.threads)
  }

  /** Two entries that would act on the same thread: same thread, same process, or a thread of the process. */
  predicate ShareScope(threads: Threads, e: BreakEntry, f: BreakEntry) {
    if e.threadSpecific == f.threadSpecific then e.id == f.id
    else if e.threadSpecific then e.id in threads && threads[e.id] == f.id
    else f.id in threads && threads[f.id] == e.id
  }

  ghost predicate ScopesApart(s: State) {
    forall i, j :: TEMP_BREAKS <= i < j < |s.list|
      && Intersect(s.list[i].address, s.list[i].mode, s.list[j].address, s.list[j].mode)
      ==> !ShareScope(s.threads, s.list[i], s.list[j])
  }

  predicate SamePlace(e: BreakEntry, address: int, mode: Mode) {
    (e.address == address && e.mode == mode) || !Intersect(e.address, e.mode, address, mode)
  }

  /** User ranges are equal, with equal modes, or disjoint. */
  ghost predicate EqualOrDisjoint(s: State) {
    forall i, j :: TEMP_BREAKS <= i < |s.list| && TEMP_BREAKS <= j < |s.list|
      ==> SamePlace(s.list[i], s.list[j].address, s.list[j].mode)
  }

  ghost predicate TempsFree(s: State) {
    |s.list| >= TEMP_BREAKS && forall i :: 0 <= i < TEMP_BREAKS ==> s.list[i].address == 0
  }

  ghost predicate UserAt(s: State, address: int) {
    exists i :: s.IsUser(i) && s.list[i].address == address
  }

  /** A location is planted exactly when some user breakpoint has that address. */
  ghost predicate Counted(s: State) {
    && (forall i :: s.IsUser(i) ==> s.list[i].address in s.plants && s.plants[s.list[i].address].mode == s.list[i].mode)
    && (forall a :: a in s.plants ==> UserAt(s, a))
  }

  /** Holds in every state, whatever is requested. */
  ghost predicate ListOk(s: State) {
    && Ordered(s)
    && TempsFree(s)
    && (forall i :: s.IsUser(i) ==> UserOk(s, s.list[i]))
    && s.raw.Keys == s.base.Keys
  }

  ghost predicate Inv(s: State) {
    && ListOk(s)
    && EqualOrDisjoint(s)
    && Counted(s)
    && Patched(s.raw, s.base, s.plants)
  }

  /** Whether another user entry keeps the address planted. */
  ghost predicate Shared(s: State, index: nat)
    requires index < |s.list|
  {
    exists i :: s.IsUser(i) && i != index && s.list[i].address == s.list[index].address
  }

  /** A clear that ignores a dead thread drops the last user breakpoint of a location without restoring code. */
  ghost predicate LeavesPlanted(s: State, breakId: int, ignoreTerminated: bool) {
    var index := Find(s.list, breakId, 0);
    && ignoreTerminated
    && s.IsUser(index)
    && HandleId(s.list[index]) !in s.threads
    && !Shared(s, index)
  }

  /** The condition on a caller: a new range equals an existing one, in mode too, or is disjoint from it; and
      no clear leaves a location planted that no user breakpoint has. */
  ghost predicate Compatible(s: State, request: Request) {
    && (request.Set? ==> forall i :: s.IsUser(i) ==> SamePlace(s.list[i], request.address, request.mode))
    && (request.Clear? ==> !LeavesPlanted(s, request.breakId, request.ignoreTerminated))
  }

  lemma FreshInv(program: Memory, threads: Threads)
    ensures Inv(Fresh(program, threads)) && ScopesApart(Fresh(program, threads))
  {
  }

  // ---------------------------------------------------------------- set

  lemma {:induction false} NoConflict(s: State, id: nat, threadSpecific: bool, address: Address, mode: Mode, i: nat, k: nat)
    requires i <= k < |s.list|
    requires FirstConflict(s, id, threadSpecific, address, mode, i) == ErrNone
    ensures Conflict(s.threads, id, threadSpecific, address, mode, s.list[k]) == ErrNone
    decreases k - i
  {
    if i >= k {
    } else {
      NoConflict(s, id, threadSpecific, address, mode, i + 1, k);
    }
  }

  // ---------------------------------------------------------------- when a set is accepted

  /** One of the two entries is of a thread, the other of a process, and that thread is not live. */
  predicate DeadThread(threads: Threads, e: BreakEntry, f: BreakEntry) {
    e.threadSpecific != f.threadSpecific && (if e.threadSpecific then e.id else f.id) !in threads
  }

  /** The existing entry shares a byte with the new one, and a thread with it, as far as can be told. */
  predicate Refuses(threads: Threads, present: BreakEntry, entry: BreakEntry) {
    && Intersect(present.address, present.mode, entry.address, entry.mode)
    && (DeadThread(threads, present, entry) || ShareScope(threads, present, entry))
  }

  lemma RefusesIff(threads: Threads, present: BreakEntry, entry: BreakEntry)
    requires Supported(entry.mode) && Aligned(entry.address, entry.mode)
    requires Supported(present.mode) && Aligned(present.address, present.mode)
    ensures Conflict(threads, entry.id, entry.threadSpecific, entry.address, entry.mode, present) ==
      if !Refuses(threads, present, entry) then ErrNone
      else if DeadThread(threads, present, entry) then ErrNotFound
      else ErrAlreadyExists
  {
    OverlapIsIntersection(entry.address, entry.mode, present.address, present.mode);
    hide Overlap;
  }

  /** Index of the first entry from index i on to refuse the new one, or the length of the list. */
  ghost function FirstToRefuse(s: State, entry: BreakEntry, i: nat): (k: nat)
    ensures k <= |s.list| && forall j :: i <= j < k ==> !Refuses(s.threads, s.list[j], entry)
    ensures k < |s.list| ==> i <= k && Refuses(s.threads, s.list[k], entry)
    decreases |s.list| - i
  {
    if i >= |s.list| then |s.list|
    else if Refuses(s.threads, s.list[i], entry) then i
    else FirstToRefuse(s, entry, i + 1)
  }

  lemma {:induction false} FirstConflictIs(s: State, entry: BreakEntry, i: nat)
    requires ListOk(s) && Supported(entry.mode) && Aligned(entry.address, entry.mode)
    requires TEMP_BREAKS <= i <= |s.list|
    ensures var k := FirstToRefuse(s, entry, i);
      FirstConflict(s, entry.id, entry.threadSpecific, entry.address, entry.mode, i) ==
      if k == |s.list| then ErrNone
      else if DeadThread(s.threads, s.list[k], entry) then ErrNotFound
      else ErrAlreadyExists
    decreases |s.list| - i
  {
    hide Conflict;
    hide Refuses;
    hide DeadThread;
    if i == |s.list| {
    } else {
      assert s.IsUser(i) && UserOk(s, s.list[i]);
      RefusesIff(s.threads, s.list[i], entry);
      hide ListOk;
      if !Refuses(s.threads, s.list[i], entry) {
        FirstConflictIs(s, entry, i + 1);
      }
    }
  }

  /** The mode can be planted, there is room, and the address is aligned. */
  predicate Askable(s: State, entry: BreakEntry) {
    Supported(entry.mode) && |s.list| + 1 < MAX_BREAKS && Aligned(entry.address, entry.mode)
  }

  lemma AskedBare(s: State, id: nat, threadSpecific: bool, address: Address, mode: Mode)
    ensures var err, entry := SetBreak(s, id, threadSpecific, address, mode).1, NewEntry(s.nextId, id, threadSpecific, address, mode);
      && (!Askable(s, entry) ==>
            err == if mode.Thumb2EE? then ErrNotSupported else if |s.list| + 1 >= MAX_BREAKS then ErrOverflow else ErrArgument)
      && (Askable(s, entry) ==>
            var conflict := FirstConflict(s, id, threadSpecific, address, mode, TEMP_BREAKS);
            err == if conflict != ErrNone then conflict
                   else if HandleId(entry) !in s.threads then ErrBadHandle
                   else if !Mapped(s.raw, address, BreakSize(mode)) then ErrBadPointer
                   else ErrNone)
  {
    hide FirstConflict;
    hide AlreadySet;
  }

  /** A set is accepted exactly when its mode can be planted, there is room, its address is aligned, no existing
      breakpoint refuses it, its thread is live and its place is mapped. */
  lemma SetIsAcceptedIff(s: State, id: nat, threadSpecific: bool, address: Address, mode: Mode)
    requires ListOk(s)
    ensures var entry := NewEntry(s.nextId, id, threadSpecific, address, mode);
      SetBreak(s, id, threadSpecific, address, mode).1 == ErrNone <==>
        && (mode == Arm || mode == Thumb) && |s.list| < 99 && Aligned(address, mode)
        && (if threadSpecific then id else id + 1) in s.threads && Mapped(s.raw, address, BreakSize(mode))
        && (forall i :: s.IsUser(i) && Intersect(s.list[i].address, s.list[i].mode, address, mode) ==>
              !DeadThread(s.threads, s.list[i], entry) && !ShareScope(s.threads, s.list[i], entry))
  {
    hide SetBreak;
    hide FirstConflict;
    hide DeadThread;
    hide ShareScope;
    hide Aligned;
    var entry := NewEntry(s.nextId, id, threadSpecific, address, mode);
    AskedBare(s, id, threadSpecific, address, mode);
    if Askable(s, entry) {
      FirstConflictIs(s, entry, TEMP_BREAKS);
      var k := FirstToRefuse(s, entry, TEMP_BREAKS);
      assert k < |s.list| ==> s.IsUser(k);
    }
  }

  /** The error of a set that is refused: that of the first condition that fails, in the order of the calls.
      The first breakpoint of the list that refuses gives its error. */
  lemma RefusalError(s: State, id: nat, threadSpecific: bool, address: Address, mode: Mode)
    requires ListOk(s)
    ensures var entry := NewEntry(s.nextId, id, threadSpecific, address, mode);
      var k := FirstToRefuse(s, entry, TEMP_BREAKS);
      SetBreak(s, id, threadSpecific, address, mode).1 ==
        if mode.Thumb2EE? then ErrNotSupported
        else if |s.list| >= 99 then ErrOverflow
        else if !Aligned(address, mode) then ErrArgument
        else if k < |s.list| then if DeadThread(s.threads, s.list[k], entry) then ErrNotFound else ErrAlreadyExists
        else if (if threadSpecific then id else id + 1) !in s.threads then ErrBadHandle
        else if !Mapped(s.raw, address, BreakSize(mode)) then ErrBadPointer
        else ErrNone
  {
    hide SetBreak;
    hide FirstConflict;
    hide Refuses;
    hide DeadThread;
    var entry := NewEntry(s.nextId, id, threadSpecific, address, mode);
    AskedBare(s, id, threadSpecific, address, mode);
    if Askable(s, entry) {
      FirstConflictIs(s, entry, TEMP_BREAKS);
    }
  }

  /** A successful set appends one live entry with the next id, holding what memory held there,
      and plants it unless its address is planted already; a failed one leaves list and memory alone. */
  ghost predicate SetDone(s: State, after: State, err: Error, entry: BreakEntry) {
    && after.base == s.base && after.threads == s.threads
    && s.nextId <= after.nextId <= s.nextId + 1
    && (err != ErrNone ==> after.list == s.list && after.raw == s.raw && after.plants == s.plants)
    && (err == ErrNone ==>
          && entry == NewEntry(s.nextId, entry.id, entry.threadSpecific, entry.address, entry.mode).(instruction := entry.instruction)
          && after.list == s.list + [entry]
          && after.nextId == s.nextId + 1
          && |s.list| + 1 < MAX_BREAKS
          && Supported(entry.mode) && Aligned(entry.address, entry.mode)
          && HandleId(entry) in s.threads
          && Mapped(s.raw, entry.address, BreakSize(entry.mode))
          && entry.instruction == Peek(s.raw, entry.address, BreakSize(entry.mode))
          && FirstConflict(s, entry.id, entry.threadSpecific, entry.address, entry.mode, TEMP_BREAKS) == ErrNone
          && (if AlreadySet(s.list, entry.address) then after.raw == s.raw && after.plants == s.plants
              else && after.raw == Poke(s.raw, entry.address, BreakBytes(entry.mode))
                   && after.plants == Planted(s.raw, s.plants, entry.address, entry.mode)))
  }

  /** Enabling reads what memory holds into the entry and plants it unless its address is planted already. */
  ghost predicate EnableDone(s: State, entry: BreakEntry, after: State, saved: BreakEntry, err: Error) {
    && (err != ErrNone ==> after == s)
    && (err == ErrNone ==>
          && BreakSize(entry.mode) != 0
          && HandleId(entry) in s.threads
          && Mapped(s.raw, entry.address, BreakSize(entry.mode))
          && saved == entry.(instruction := Peek(s.raw, entry.address, BreakSize(entry.mode)))
          && after == if AlreadySet(s.list, entry.address) then s else ModifyCode(s, entry.address, entry.mode))
  }

  lemma EnableShape(s: State, entry: BreakEntry)
    ensures var (after, saved, err) := Enable(s, entry, true); EnableDone(s, entry, after, saved, err)
  {
  }

  lemma SetShape(s: State, id: nat, threadSpecific: bool, address: Address, mode: Mode)
    returns (after: State, err: Error, entry: BreakEntry)
    ensures (after, err) == SetBreak(s, id, threadSpecific, address, mode)
    ensures entry.id == id && entry.threadSpecific == threadSpecific && entry.address == address && entry.mode == mode
    ensures SetDone(s, after, err, entry)
  {
    hide Enable;
    var result := SetBreak(s, id, threadSpecific, address, mode);
    after, err := result.0, result.1;
    var blank := NewEntry(s.nextId, id, threadSpecific, address, mode);
    var counted := s.(nextId := s.nextId + 1);
    EnableShape(counted, blank);
    entry := if err == ErrNone then Enable(counted, blank, true).1 else blank;
  }

  lemma SetKeepsUsers(s: State, after: State, err: Error, entry: BreakEntry)
    ensures SetDone(s, after, err, entry) && ListOk(s) ==> after.raw.Keys == after.base.Keys
    ensures SetDone(s, after, err, entry) && ListOk(s) ==> forall i :: after.IsUser(i) ==> UserOk(after, after.list[i])
  {
    if SetDone(s, after, err, entry) && ListOk(s) {
      forall i | after.IsUser(i) ensures UserOk(after, after.list[i]) {
        if i < |s.list| {
          assert UserOk(s, s.list[i]);
        }
      }
    }
  }

  lemma SetKeepsList(s: State, after: State, err: Error, entry: BreakEntry)
    ensures SetDone(s, after, err, entry) && ListOk(s) ==> ListOk(after)
  {
    if SetDone(s, after, err, entry) && ListOk(s) {
      assert Ordered(after);
      SetKeepsUsers(s, after, err, entry);
    }
  }

  lemma SetKeepsScopes(s: State, after: State, err: Error, entry: BreakEntry)
    requires SetDone(s, after, err, entry) && ListOk(s) && ScopesApart(s)
    ensures ScopesApart(after)
  {
    if err == ErrNone {
      forall i | s.IsUser(i) && Intersect(s.list[i].address, s.list[i].mode, entry.address, entry.mode)
        ensures !ShareScope(after.threads, s.list[i], entry)
      {
        assert UserOk(s, s.list[i]);
        NoConflict(s, entry.id, entry.threadSpecific, entry.address, entry.mode, TEMP_BREAKS, i);
        OverlapIsIntersection(entry.address, entry.mode, s.list[i].address, s.list[i].mode);
      }
    }
  }

  /** The new entry's range equals an existing one, in mode too, or is disjoint from it. */
  ghost predicate Fits(s: State, entry: BreakEntry) {
    forall i :: s.IsUser(i) ==> SamePlace(s.list[i], entry.address, entry.mode)
  }

  lemma FitsIsSameOrApart(s: State, entry: BreakEntry)
    ensures Counted(s) && Fits(s, entry) ==> SameOrApart(s.plants, entry.address, entry.mode)
  {
    if Counted(s) && Fits(s, entry) {
      forall p | p in s.plants
        ensures (p == entry.address && s.plants[p].mode == entry.mode) || !Intersect(p, s.plants[p].mode, entry.address, entry.mode)
      {
        var i :| s.IsUser(i) && s.list[i].address == p;
        assert SamePlace(s.list[i], entry.address, entry.mode);
      }
    }
  }

  lemma SetKeepsPatched(s: State, after: State, err: Error, entry: BreakEntry)
    ensures SetDone(s, after, err, entry) && Inv(s) && Fits(s, entry) ==> Patched(after.raw, after.base, after.plants)
  {
    if SetDone(s, after, err, entry) && Inv(s) && Fits(s, entry) {
      if err == ErrNone && !AlreadySet(s.list, entry.address) {
        FitsIsSameOrApart(s, entry);
        PlantKeepsPatched(s.raw, s.base, s.plants, entry.address, entry.mode);
      }
      hide Patched;
    }
  }

  /** After a set, the location of the new entry is planted in its mode. */
  lemma SetPlants(s: State, after: State, err: Error, entry: BreakEntry)
    requires SetDone(s, after, err, entry) && Inv(s) && Fits(s, entry) && err == ErrNone
    ensures entry.address in after.plants && after.plants[entry.address].mode == entry.mode
    ensures forall p :: p in s.plants ==> p in after.plants && after.plants[p] == s.plants[p]
    ensures forall p :: p in after.plants ==> p in s.plants || p == entry.address
  {
    if AlreadySet(s.list, entry.address) {
      var i :| TEMP_BREAKS <= i < |s.list| && s.list[i].address == entry.address && !s.list[i].disabledForStep;
      assert s.IsUser(i) && SamePlace(s.list[i], entry.address, entry.mode);
      assert UserOk(s, s.list[i]);
    } else {
      FitsIsSameOrApart(s, entry);
      SameMode(s.base, s.plants, entry.address, entry.mode);
    }
  }

  lemma SetKeepsCounted(s: State, after: State, err: Error, entry: BreakEntry)
    requires SetDone(s, after, err, entry) && Inv(s) && Fits(s, entry)
    ensures Counted(after)
  {
    hide Patched;
    hide Planted;
    hide Fits;
    hide EqualOrDisjoint;
    if err == ErrNone {
      SetPlants(s, after, err, entry);
      hide ListOk;
      hide FirstConflict;
      forall a | a in after.plants ensures UserAt(after, a) {
        if a == entry.address {
          assert after.list[|s.list|].address == a && after.IsUser(|s.list|);
        } else {
          var i :| s.IsUser(i) && s.list[i].address == a;
          assert after.list[i] == s.list[i] && after.IsUser(i);
        }
      }
    }
  }

  lemma SetKeepsInv(s: State, after: State, err: Error, entry: BreakEntry)
    requires SetDone(s, after, err, entry) && Inv(s) && Fits(s, entry)
    ensures Inv(after)
  {
    SetKeepsList(s, after, err, entry);
    SetKeepsPatched(s, after, err, entry);
    SetKeepsCounted(s, after, err, entry);
    if err == ErrNone {
      forall i, j | after.IsUser(i) && after.IsUser(j)
        ensures SamePlace(after.list[i], after.list[j].address, after.list[j].mode)
      {
        if i < |s.list| {
          assert SamePlace(s.list[i], entry.address, entry.mode);
        }
        if j < |s.list| {
          assert SamePlace(s.list[j], entry.address, entry.mode);
        }
      }
    }
  }

  // ---------------------------------------------------------------- clear

  /** Where the entry at an index of the shortened list came from. */
  function Origin(index: nat, i: nat): nat {
    if index < TEMP_BREAKS || i < index then i else i + 1
  }

  lemma DroppedAt(list: seq<BreakEntry>, index: nat, i: nat)
    requires index < |list| && i < |Dropped(list, index)|
    ensures index < TEMP_BREAKS && i == index ==> Dropped(list, index)[i] == Cleared(list[i])
    ensures !(index < TEMP_BREAKS && i == index) ==>
      Origin(index, i) < |list| && Dropped(list, index)[i] == list[Origin(index, i)]
  {
  }

  /** A clear removes the entry with the given id, or empties it if temporary, or changes nothing. */
  ghost predicate ClearDone(s: State, after: State, err: Error, index: nat) {
    && after.base == s.base && after.threads == s.threads && after.nextId == s.nextId
    && after.raw.Keys == s.raw.Keys
    && (err != ErrNone ==> after == s)
    && (err == ErrNone ==>
          && index < |s.list|
          && after.list == Dropped(s.list, index)
          && (if HandleId(s.list[index]) in s.threads && !OverlappedByOther(s.list, index)
              then after == RestoreCode(s, s.list[index].address).(list := after.list)
              else after == s.(list := after.list)))
  }

  lemma ClearShape(s: State, breakId: int, ignoreTerminated: bool) returns (after: State, err: Error, index: nat)
    ensures (after, err) == ClearBreak(s, breakId, ignoreTerminated)
    ensures ClearDone(s, after, err, index)
    ensures err == ErrNone ==> s.list[index].breakId == breakId && index == Find(s.list, breakId, 0)
    ensures err == ErrNone ==> HandleId(s.list[index]) in s.threads || ignoreTerminated
  {
    var result := ClearBreak(s, breakId, ignoreTerminated);
    after, err := result.0, result.1;
    FindIsMember(s.list, breakId, 0);
    index := if Find(s.list, breakId, 0) == -1 then 0 else Find(s.list, breakId, 0);
  }

  /** A clear finds the first entry of that id; it fails when there is none, or when the thread has terminated and that
      is not to be ignored. A temporary slot is left as an empty one, a user entry leaves the list. */
  lemma ClearOutcome(s: State, breakId: int, ignoreTerminated: bool) returns (index: nat)
    ensures index <= |s.list| && forall k :: 0 <= k < index ==> s.list[k].breakId != breakId
    ensures index < |s.list| ==> s.list[index].breakId == breakId
    ensures var (after, err) := ClearBreak(s, breakId, ignoreTerminated);
      && err == (if index == |s.list| then ErrNotFound
                 else if !ignoreTerminated && HandleId(s.list[index]) !in s.threads then ErrBadHandle
                 else ErrNone)
      && (err == ErrNone ==>
            after.list == if index < TEMP_BREAKS then s.list[index := NewEntry(breakId, 0, s.list[index].threadSpecific, 0, Arm)]
              else s.list[..index] + s.list[index + 1..])
  {
    FindIsMember(s.list, breakId, 0);
    FindIsFirst(s.list, breakId, 0);
    index := if Find(s.list, breakId, 0) == -1 then |s.list| else Find(s.list, breakId, 0);
  }

  lemma {:induction false} FindIsFirst(list: seq<BreakEntry>, breakId: int, i: nat)
    ensures forall k :: i <= k < |list| && (Find(list, breakId, i) == -1 || k < Find(list, breakId, i)) ==>
      list[k].breakId != breakId
    decreases |list| - i
  {
    if i >= |list| || list[i].breakId == breakId {
    } else {
      FindIsFirst(list, breakId, i + 1);
    }
  }

  lemma DropKeepsOrder(s: State, index: nat)
    ensures Ordered(s) && index < |s.list| ==> Ordered(s.(list := Dropped(s.list, index)))
  {
    if Ordered(s) && index < |s.list| {
      assert |Dropped(s.list, index)| == if index < TEMP_BREAKS then |s.list| else |s.list| - 1;
      forall i | 0 <= i < |Dropped(s.list, index)|
        ensures Origin(index, i) < |s.list| && Dropped(s.list, index)[i].breakId == s.list[Origin(index, i)].breakId
      {
        assert Origin(index, i) < |s.list| && Dropped(s.list, index)[i].breakId == s.list[Origin(index, i)].breakId by {
          DroppedAt(s.list, index, i);
        }
      }
      hide Dropped;
    }
  }

  lemma DropKeepsScopes(s: State, index: nat)
    ensures ScopesApart(s) && index < |s.list| ==> ScopesApart(s.(list := Dropped(s.list, index)))
  {
    if ScopesApart(s) && index < |s.list| {
      var list := Dropped(s.list, index);
      forall i, j | TEMP_BREAKS <= i < j < |list| && Intersect(list[i].address, list[i].mode, list[j].address, list[j].mode)
        ensures !ShareScope(s.threads, list[i], list[j])
      {
        DroppedAt(s.list, index, i);
        DroppedAt(s.list, index, j);
      }
    }
  }

  lemma ClearKeepsUsers(s: State, after: State, err: Error, index: nat)
    ensures ClearDone(s, after, err, index) && ListOk(s) ==> TempsFree(after)
    ensures ClearDone(s, after, err, index) && ListOk(s) ==>
      forall i :: after.IsUser(i) ==> UserOk(after, after.list[i])
  {
    if ClearDone(s, after, err, index) && ListOk(s) {
      if err == ErrNone {
        forall i | after.IsUser(i) ensures UserOk(after, after.list[i]) {
          DroppedAt(s.list, index, i);
          assert UserOk(s, s.list[Origin(index, i)]);
        }
        forall i | 0 <= i < TEMP_BREAKS ensures after.list[i].address == 0 {
          DroppedAt(s.list, index, i);
        }
      }
    }
  }

  lemma ClearKeepsList(s: State, after: State, err: Error, index: nat)
    ensures ClearDone(s, after, err, index) && ListOk(s) ==> ListOk(after)
    ensures ClearDone(s, after, err, index) && ListOk(s) ==> ScopesApart(s) ==> ScopesApart(after)
  {
    if ClearDone(s, after, err, index) && ListOk(s) {
      ClearKeepsUsers(s, after, err, index);
      if err == ErrNone {
        DropKeepsOrder(s, index);
        if ScopesApart(s) {
          DropKeepsScopes(s, index);
        }
      }
    }
  }

  /** With ranges equal or disjoint, another overlapping user entry is one at the same address. */
  lemma OverlapIsSameAddress(s: State, index: nat)
    ensures Inv(s) && s.IsUser(index) ==> (OverlappedByOther(s.list, index) <==> Shared(s, index))
  {
    if Inv(s) && s.IsUser(index) {
      var e := s.list[index];
      assert UserOk(s, e);
      forall i | s.IsUser(i)
        ensures Overlap(e.address, e.mode, s.list[i].address, s.list[i].mode) <==> s.list[i].address == e.address
      {
        assert UserOk(s, s.list[i]);
        OverlapIsIntersection(e.address, e.mode, s.list[i].address, s.list[i].mode);
        assert SamePlace(s.list[i], e.address, e.mode);
      }
    }
  }

  lemma DropKeepsPlaces(s: State, after: State, index: nat)
    requires EqualOrDisjoint(s) && index < |s.list| && after.list == Dropped(s.list, index)
    ensures EqualOrDisjoint(after)
  {
    forall i, j | TEMP_BREAKS <= i < |after.list| && TEMP_BREAKS <= j < |after.list|
      ensures SamePlace(after.list[i], after.list[j].address, after.list[j].mode)
    {
      DroppedAt(s.list, index, i);
      DroppedAt(s.list, index, j);
    }
  }

  lemma ClearTempKeepsCounted(s: State, after: State, err: Error, index: nat)
    requires ClearDone(s, after, err, index) && Inv(s) && err == ErrNone && index < TEMP_BREAKS
    ensures Counted(after) && Patched(after.raw, after.base, after.plants)
  {
    ClearTempKeepsPlants(s, index);
    forall a | a in after.plants ensures UserAt(after, a) {
      var i :| s.IsUser(i) && s.list[i].address == a;
      assert after.IsUser(i) && after.list[i] == s.list[i];
    }
  }

  lemma ClearKeepsInv(s: State, after: State, err: Error, index: nat)
    requires ClearDone(s, after, err, index) && Inv(s)
    requires err == ErrNone && index >= TEMP_BREAKS ==> HandleId(s.list[index]) in s.threads || Shared(s, index)
    ensures Inv(after)
  {
    ClearKeepsList(s, after, err, index);
    if err == ErrNone {
      DropKeepsPlaces(s, after, index);
      hide Patched;
      hide Counted;
      if index < TEMP_BREAKS {
        ClearTempKeepsCounted(s, after, err, index);
      } else {
        assert UserOk(s, s.list[index]);
        ClearUserKeepsCounted(s, index, after);
      }
    }
  }

  /** A clear that leaves a location planted breaks the count: nobody stands there any more. */
  lemma DropBreaksCount(s: State, after: State, err: Error, index: nat)
    requires ClearDone(s, after, err, index) && Inv(s)
    requires err == ErrNone && s.IsUser(index) && HandleId(s.list[index]) !in s.threads && !Shared(s, index)
    ensures !Counted(after)
  {
    hide Patched;
    var a := s.list[index].address;
    assert a in after.plants;
    forall i | after.IsUser(i) ensures after.list[i].address != a {
      DroppedAt(s.list, index, i);
      assert s.IsUser(Origin(index, i));
    }
  }

  /** Clearing a free temporary slot leaves code alone: an address-0 plant has its own user entry. */
  lemma ClearTempKeepsPlants(s: State, index: nat)
    ensures Inv(s) && index < TEMP_BREAKS ==>
      OverlappedByOther(s.list, index) || RestoreCode(s, s.list[index].address) == s
  {
    if Inv(s) && index < TEMP_BREAKS {
      if 0 in s.plants {
        var i :| s.IsUser(i) && s.list[i].address == 0;
        assert UserOk(s, s.list[i]);
        assert Overlap(0, s.list[index].mode, s.list[i].address, s.list[i].mode) by {
          assert Overlap(0, (s.list[index].mode), 0, (s.list[i].mode)) by {
            if BreakSize(s.list[index].mode) != 0 && BreakSize(s.list[i].mode) != 0 {
              OverlapIsIntersection(0, (s.list[index].mode), 0, (s.list[i].mode));
            }
          }
        }
      }
    }
  }

  lemma EntriesStayPlanted(s: State, index: nat, list: seq<BreakEntry>, plants: Plants)
    requires Counted(s) && s.IsUser(index) && list == Dropped(s.list, index)
    requires plants == if Shared(s, index) then s.plants else s.plants - {s.list[index].address}
    ensures forall i :: TEMP_BREAKS <= i < |list| ==>
      list[i].address in plants && plants[list[i].address].mode == list[i].mode
  {
    forall i | TEMP_BREAKS <= i < |list|
      ensures list[i].address in plants && plants[list[i].address].mode == list[i].mode
    {
      DroppedAt(s.list, index, i);
      assert s.IsUser(Origin(index, i));
    }
  }

  lemma PlantsStayOwned(s: State, index: nat, list: seq<BreakEntry>, plants: Plants, a: int)
    requires Counted(s) && s.IsUser(index) && list == Dropped(s.list, index)
    requires plants == if Shared(s, index) then s.plants else s.plants - {s.list[index].address}
    requires a in plants
    ensures exists i :: TEMP_BREAKS <= i < |list| && list[i].address == a
  {
    assert UserAt(s, a);
    var i :| s.IsUser(i) && s.list[i].address == a && i != index;
    var k := if i < index then i else i - 1;
    DroppedAt(s.list, index, k);
    assert list[k] == s.list[i];
  }

  lemma ClearUserKeepsCounted(s: State, index: nat, after: State)
    requires Inv(s) && s.IsUser(index)
    requires after.list == Dropped(s.list, index)
    requires HandleId(s.list[index]) in s.threads || Shared(s, index)
    requires if HandleId(s.list[index]) in s.threads && !OverlappedByOther(s.list, index)
      then after == RestoreCode(s, s.list[index].address).(list := after.list)
      else after == s.(list := after.list)
    ensures Counted(after) && Patched(after.raw, after.base, after.plants)
  {
    OverlapIsSameAddress(s, index);
    if !OverlappedByOther(s.list, index) {
      RestoreKeepsPatched(s.raw, s.base, s.plants, s.list[index].address);
    }
    hide Patched;
    hide OverlappedByOther;
    EntriesStayPlanted(s, index, after.list, after.plants);
    forall a | a in after.plants ensures UserAt(after, a) {
      PlantsStayOwned(s, index, after.list, after.plants, a);
    }
  }

  /** The count survives a clear exactly when the clear does not leave a location planted. */
  lemma ClearKeepsCountIff(s: State, breakId: int, ignoreTerminated: bool)
    requires Inv(s)
    ensures Inv(ClearBreak(s, breakId, ignoreTerminated).0) <==> !LeavesPlanted(s, breakId, ignoreTerminated)
  {
    var after, err, index := ClearShape(s, breakId, ignoreTerminated);
    if LeavesPlanted(s, breakId, ignoreTerminated) {
      DropBreaksCount(s, after, err, index);
    } else {
      ClearKeepsInv(s, after, err, index);
    }
  }

  // ---------------------------------------------------------------- threads

  /** A breakpoint that goes with the thread. */
  predicate GoesWith(entry: BreakEntry, threadId: nat) {
    entry.address != 0 && HandleId(entry) == threadId
  }

  /** Every user entry was there before, or has an id not used before. */
  ghost predicate EntriesFrom(s: State, after: State) {
    forall e :: e in after.list && e.breakId >= TEMP_BREAKS ==> e in s.list || e.breakId >= s.nextId
  }

  lemma ClearKeepsEntries(s: State, after: State, err: Error, index: nat)
    ensures ClearDone(s, after, err, index) && Ordered(s) ==> EntriesFrom(s, after)
  {
    if ClearDone(s, after, err, index) && Ordered(s) {
      if err == ErrNone {
        forall e | e in after.list && e.breakId >= TEMP_BREAKS ensures e in s.list {
          var i :| 0 <= i < |after.list| && after.list[i] == e;
          DroppedAt(s.list, index, i);
          assert s.list[TEMP_BREAKS - 1].breakId == TEMP_BREAKS - 1;
        }
      }
    }
  }

  lemma EntriesFromTwice(s: State, mid: State, after: State)
    requires EntriesFrom(s, mid) && EntriesFrom(mid, after) && s.nextId <= mid.nextId
    ensures EntriesFrom(s, after)
  {
  }

  lemma ClearKeeps(s: State, breakId: int, ignoreTerminated: bool) returns (after: State)
    requires ListOk(s) && ScopesApart(s)
    ensures after == ClearBreak(s, breakId, ignoreTerminated).0
    ensures ListOk(after) && ScopesApart(after) && after.nextId == s.nextId && after.threads == s.threads
    ensures after.base == s.base && EntriesFrom(s, after)
    ensures Inv(s) && !LeavesPlanted(s, breakId, ignoreTerminated) ==> Inv(after)
  {
    var err, index;
    after, err, index := ClearShape(s, breakId, ignoreTerminated);
    ClearKeepsList(s, after, err, index);
    ClearKeepsEntries(s, after, err, index);
    if Inv(s) && !LeavesPlanted(s, breakId, ignoreTerminated) {
      ClearKeepsCountIff(s, breakId, ignoreTerminated);
    }
  }

  lemma NotLeftPlanted(s: State, breakId: int)
    ensures !LeavesPlanted(s, breakId, false)
  {
  }

  /** Clearing a breakpoint of a thread still alive drops exactly its entry. */
  lemma ClearLive(s: State, index: nat)
    requires ListOk(s) && s.IsUser(index) && HandleId(s.list[index]) in s.threads
    ensures var (after, err) := ClearBreak(s, s.list[index].breakId, false);
      err == ErrNone && after.list == Dropped(s.list, index) && after.threads == s.threads
  {
    FindFrom(s.list, index, 0);
  }

  /** Clearing one breakpoint of the dying thread leaves none from its place on. */
  lemma DeathClearsOne(s: State, threadId: nat, i: nat) returns (cleared: State)
    requires ListOk(s) && ScopesApart(s) && i < |s.list| && GoesWith(s.list[i], threadId)
    requires forall k :: i < k < |s.list| ==> !GoesWith(s.list[k], threadId)
    ensures (cleared, ErrNone) == ClearBreak(s, s.list[i].breakId, false)
    ensures ListOk(cleared) && ScopesApart(cleared) && cleared.threads == s.threads && i <= |cleared.list|
    ensures forall k :: i <= k < |cleared.list| ==> !GoesWith(cleared.list[k], threadId)
  {
    assert s.IsUser(i) && UserOk(s, s.list[i]);
    ClearLive(s, i);
    cleared := ClearKeeps(s, s.list[i].breakId, false);
    hide ListOk;
    hide ScopesApart;
    hide ClearBreak;
    forall k | i <= k < |cleared.list| ensures !GoesWith(cleared.list[k], threadId) {
      DroppedAt(s.list, i, k);
    }
  }

  /** From the back, every breakpoint that goes with the thread is removed. */
  lemma {:induction false} DeathRemovesAll(s: State, threadId: nat, i: nat)
    requires ListOk(s) && ScopesApart(s) && i <= |s.list|
    requires forall k :: i <= k < |s.list| ==> !GoesWith(s.list[k], threadId)
    ensures var after := RemoveThreadBreaks(s, threadId, i);
      && after.threads == s.threads
      && (forall k :: 0 <= k < |after.list| ==> !GoesWith(after.list[k], threadId))
    decreases i
  {
    hide ListOk;
    hide ScopesApart;
    hide ClearBreak;
    if i == 0 {
    } else if GoesWith(s.list[i - 1], threadId) {
      var cleared := DeathClearsOne(s, threadId, i - 1);
      DeathRemovesAll(cleared, threadId, i - 1);
    } else {
      DeathRemovesAll(s, threadId, i - 1);
    }
  }

  lemma {:induction false} RemovalKeeps(s: State, threadId: nat, i: nat)
    requires ListOk(s) && ScopesApart(s)
    ensures var after := RemoveThreadBreaks(s, threadId, i);
      && ListOk(after) && ScopesApart(after) && after.nextId == s.nextId && (Inv(s) ==> Inv(after))
      && after.base == s.base && EntriesFrom(s, after)
    decreases i
  {
    hide ListOk;
    hide ScopesApart;
    hide Inv;
    hide ClearBreak;
    hide LeavesPlanted;
    if i == 0 || i > |s.list| {
    } else {
      if GoesWith(s.list[i - 1], threadId) {
        NotLeftPlanted(s, s.list[i - 1].breakId);
        var cleared := ClearKeeps(s, s.list[i - 1].breakId, false);
        RemovalKeeps(cleared, threadId, i - 1);
        EntriesFromTwice(s, cleared, RemoveThreadBreaks(cleared, threadId, i - 1));
      } else {
        RemovalKeeps(s, threadId, i - 1);
      }
    }
  }

  /** Of the list's order, its places and memory, none depends on the threads. */
  lemma InvIgnoresThreads(s: State, threads: Threads)
    ensures Inv(s) && ListOk(s.(threads := threads)) ==> Inv(s.(threads := threads))
  {
    hide ListOk;
    hide Patched;
    if Inv(s) && ListOk(s.(threads := threads)) {
      var after := s.(threads := threads);
      forall a | a in after.plants ensures UserAt(after, a) {
        var i :| s.IsUser(i) && s.list[i].address == a;
        assert after.IsUser(i);
      }
      forall i, j | TEMP_BREAKS <= i < |after.list| && TEMP_BREAKS <= j < |after.list|
        ensures SamePlace(after.list[i], after.list[j].address, after.list[j].mode)
      {
        assert SamePlace(s.list[i], s.list[j].address, s.list[j].mode);
      }
    }
  }

  lemma ListIgnoresThreads(s: State, threads: Threads)
    requires ListOk(s)
    requires forall i :: s.IsUser(i) && s.list[i].address != 0 ==> HandleId(s.list[i]) in threads
    ensures ListOk(s.(threads := threads))
  {
    var after := s.(threads := threads);
    forall i | after.IsUser(i) ensures UserOk(after, after.list[i]) {
      assert UserOk(s, s.list[i]);
    }
  }

  /** Without the thread, its breakpoints gone, every remaining entry is as good as before. */
  lemma ThreadGone(s: State, threadId: nat)
    requires ListOk(s) && ScopesApart(s)
    requires forall k :: 0 <= k < |s.list| ==> !GoesWith(s.list[k], threadId)
    ensures var after := s.(threads := s.threads - {threadId});
      ListOk(after) && ScopesApart(after) && (Inv(s) ==> Inv(after))
  {
    hide Inv;
    forall i | s.IsUser(i) && s.list[i].address != 0 ensures HandleId(s.list[i]) in s.threads - {threadId} {
      assert UserOk(s, s.list[i]) && !GoesWith(s.list[i], threadId);
    }
    ListIgnoresThreads(s, s.threads - {threadId});
    hide ListOk;
    if Inv(s) {
      InvIgnoresThreads(s, s.threads - {threadId});
    }
  }

  lemma ThreadDeathKeeps(s: State, threadId: nat)
    requires ListOk(s) && ScopesApart(s)
    ensures var after := Step(s, ThreadDies(threadId));
      && ListOk(after) && ScopesApart(after) && after.nextId == s.nextId && (Inv(s) ==> Inv(after))
      && after.base == s.base && EntriesFrom(s, after)
  {
    hide RemoveThreadBreaks;
    hide ScopesApart;
    hide Inv;
    RemovalKeeps(s, threadId, |s.list|);
    DeathRemovesAll(s, threadId, |s.list|);
    hide ListOk;
    ThreadGone(RemoveThreadBreaks(s, threadId, |s.list|), threadId);
  }

  lemma ThreadStartKeeps(s: State, threadId: nat, processId: nat)
    requires ListOk(s) && ScopesApart(s)
    ensures var after := StartThread(s, threadId, processId);
      ListOk(after) && ScopesApart(after) && after.nextId == s.nextId && (Inv(s) ==> Inv(after))
  {
    hide Inv;
    if !UsedThreadId(s, threadId) {
      forall i | s.IsUser(i) && s.list[i].address != 0 ensures HandleId(s.list[i]) in s.threads[threadId := processId] {
        assert UserOk(s, s.list[i]);
      }
      ListIgnoresThreads(s, s.threads[threadId := processId]);
      hide ListOk;
      if Inv(s) {
        InvIgnoresThreads(s, s.threads[threadId := processId]);
      }
    }
  }

  // ---------------------------------------------------------------- whole runs

  lemma StepKeeps(s: State, request: Request)
    requires ListOk(s) && ScopesApart(s)
    ensures ListOk(Step(s, request)) && ScopesApart(Step(s, request))
    ensures s.nextId <= Step(s, request).nextId <= s.nextId + 1
    ensures Step(s, request).base == s.base && EntriesFrom(s, Step(s, request))
    ensures Inv(s) && Compatible(s, request) ==> Inv(Step(s, request))
  {
    hide ListOk;
    hide ScopesApart;
    match request
    case Set(id, threadSpecific, address, mode) =>
      var after, err, entry := SetShape(s, id, threadSpecific, address, mode);
      SetKeepsList(s, after, err, entry);
      SetKeepsScopes(s, after, err, entry);
      if Inv(s) && Compatible(s, request) {
        SetKeepsInv(s, after, err, entry);
      }
    case Clear(breakId, ignoreTerminated) =>
      var after := ClearKeeps(s, breakId, ignoreTerminated);
    case ThreadStarts(threadId, processId) =>
      ThreadStartKeeps(s, threadId, processId);
    case ThreadDies(threadId) =>
      ThreadDeathKeeps(s, threadId);
  }

  /** Every request sets only ranges equal to or disjoint from those then standing, and no clear leaves a
      location planted. */
  ghost predicate AllCompatible(s: State, requests: seq<Request>)
    decreases |requests|
  {
    requests == [] || (Compatible(s, requests[0]) && AllCompatible(Step(s, requests[0]), requests[1..]))
  }

  lemma {:induction false} RunKeeps(s: State, requests: seq<Request>)
    requires ListOk(s) && ScopesApart(s)
    ensures ListOk(Run(s, requests)) && ScopesApart(Run(s, requests))
    ensures s.nextId <= Run(s, requests).nextId <= s.nextId + |requests|
    ensures Run(s, requests).base == s.base && EntriesFrom(s, Run(s, requests))
    ensures Inv(s) && AllCompatible(s, requests) ==> Inv(Run(s, requests))
    decreases |requests|
  {
    hide ListOk;
    hide ScopesApart;
    hide Inv;
    hide Compatible;
    hide Step;
    if requests == [] {
    } else {
      StepKeeps(s, requests[0]);
      RunKeeps(Step(s, requests[0]), requests[1..]);
      EntriesFromTwice(s, Step(s, requests[0]), Run(s, requests));
    }
  }

  /** An entry that has an id now is the one that had it before. */
  lemma IdsNameOneEntry(s: State, after: State)
    ensures Ordered(s) && EntriesFrom(s, after) ==>
      forall e, f :: e in s.list && f in after.list && e.breakId == f.breakId && f.breakId >= TEMP_BREAKS ==> e == f
  {
  }

  /** Over every run at all, from the driver's start: ids stay in order and are never reused, and no two user
      breakpoints whose bytes intersect share a scope. */
  lemma EveryRunKeepsListAndScopes(program: Memory, threads: Threads, requests: seq<Request>, more: seq<Request>)
    ensures var s := Run(Fresh(program, threads), requests);
      && ListOk(s) && ScopesApart(s) && s.nextId <= Run(s, more).nextId
      && TEMP_BREAKS <= s.nextId <= TEMP_BREAKS + |requests|
      && (forall e, f :: e in s.list && f in Run(s, more).list && e.breakId == f.breakId && f.breakId >= TEMP_BREAKS ==> e == f)
  {
    FreshInv(program, threads);
    RunKeeps(Fresh(program, threads), requests);
    var s := Run(Fresh(program, threads), requests);
    RunKeeps(s, more);
    IdsNameOneEntry(s, Run(s, more));
  }

  /** Planting is reference-counted: over every compatible run from the driver's start, memory is the original
      code patched at exactly the addresses of the user breakpoints. */
  lemma PlantingIsReferenceCounted(program: Memory, threads: Threads, requests: seq<Request>)
    requires AllCompatible(Fresh(program, threads), requests)
    ensures var s := Run(Fresh(program, threads), requests);
      Counted(s) && Patched(s.raw, program, s.plants)
  {
    FreshInv(program, threads);
    RunKeeps(Fresh(program, threads), requests);
  }

  // ---------------------------------------------------------------- clear-all

  lemma RestoreOne(s: State, a: Address)
    requires Patched(s.raw, s.base, s.plants)
    ensures var next := RestoreCode(s, a);
      && next == s.(raw := next.raw, plants := s.plants - {a as int}) && Patched(next.raw, s.base, next.plants)
  {
    if CanRestore(s, a) {
      RestoreKeepsPatched(s.raw, s.base, s.plants, a);
    } else {
      assert s.plants - {a as int} == s.plants;
    }
  }

  lemma {:induction false} RestoreFromUnplants(s: State, i: nat)
    requires Patched(s.raw, s.base, s.plants)
    requires forall k :: i <= k < |s.list| && s.list[k].address != 0 ==> HandleId(s.list[k]) in s.threads
    ensures var after := RestoreFrom(s, i);
      && Patched(after.raw, after.base, after.plants) && after.base == s.base
      && after.plants.Keys <= s.plants.Keys
      && (forall a :: a in s.plants && (a == 0 || forall k :: i <= k < |s.list| ==> s.list[k].address != a) ==> a in after.plants)
      && (forall k :: i <= k < |s.list| && s.list[k].address != 0 ==> s.list[k].address !in after.plants)
    decreases |s.list| - i
  {
    hide Patched;
    if i >= |s.list| {
    } else if s.list[i].address != 0 {
      RestoreOne(s, s.list[i].address);
      hide RestoreCode;
      RestoreFromUnplants(RestoreCode(s, s.list[i].address), i + 1);
    } else {
      RestoreFromUnplants(s, i + 1);
    }
  }

  /** Clear-all leaves planted only a breakpoint at address 0, which it takes for an empty slot. */
  lemma ClearAllLeavesOnlyAddressZero(s: State)
    requires Inv(s)
    ensures ClearAll(s).list == [] && ClearAll(s).plants.Keys == s.plants.Keys * {0}
    ensures Patched(ClearAll(s).raw, s.base, ClearAll(s).plants)
  {
    forall k | 0 <= k < |s.list| && s.list[k].address != 0 ensures HandleId(s.list[k]) in s.threads {
      assert s.IsUser(k) && UserOk(s, s.list[k]);
    }
    RestoreFromUnplants(s, 0);
    var after := RestoreFrom(s, 0);
    forall a | a in after.plants ensures a == 0 {
      var i :| s.IsUser(i) && s.list[i].address == a;
    }
  }

  /** Clear-all gives back the original code exactly when no user breakpoint stands at address 0,
      short of the program holding the breakpoint instruction there itself. */
  lemma ClearAllRestoresCode(s: State)
    requires Inv(s)
    ensures ClearAll(s).raw == s.base <==>
      !UserAt(s, 0) || (0 in s.plants && s.plants[0].original == BreakBytes(s.plants[0].mode))
  {
    hide Patched;
    hide ClearAll;
    hide Inv;
    ClearAllLeavesOnlyAddressZero(s);
    InvPatched(s);
    ZeroPlantedIffUser(s);
    var after := ClearAll(s);
    if 0 in s.plants {
      LastPlantIsKept(s, 0);
      assert after.plants == map[0 := s.plants[0]];
      ZeroIsRestoredIff(s, after);
    } else {
      assert after.plants == map[];
      NothingPlantedIsBase(after.raw, s.base);
    }
  }

  lemma ZeroPlantedIffUser(s: State)
    ensures Inv(s) ==> (0 in s.plants <==> UserAt(s, 0))
  {
    hide Patched;
    hide ListOk;
  }

  lemma InvPatched(s: State)
    ensures Inv(s) ==> Patched(s.raw, s.base, s.plants)
  {
  }

  /** With only address 0 planted, memory is the base exactly when the base holds the break instruction there. */
  lemma ZeroIsRestoredIff(s: State, after: State)
    requires Patched(s.raw, s.base, s.plants) && Patched(after.raw, s.base, after.plants)
    requires 0 in s.plants && after.plants == map[0 := s.plants[0]]
    ensures after.raw == s.base <==> s.plants[0].original == BreakBytes(s.plants[0].mode)
  {
    var mode := s.plants[0].mode;
    forall k | 0 <= k < BreakSize(mode) ensures after.raw[k] == BreakBytes(mode)[k] && s.plants[0].original[k] == s.base[k] {
      assert Covers(0, after.plants[0].mode, k);
    }
    forall x | x in s.base && !Covers(0, mode, x) ensures after.raw[x] == s.base[x] {
      assert Uncovered(after.plants, x);
    }
    if s.plants[0].original == BreakBytes(mode) {
      forall x | x in s.base ensures after.raw[x] == s.base[x] {
        assert Covers(0, mode, x) ==> s.plants[0].original[x] == s.base[x];
      }
    }
    if after.raw == s.base {
      assert s.plants[0].original == BreakBytes(mode);
    }
  }

  lemma {:induction false} LastPlantIsKeptFrom(s: State, a: int, i: nat)
    ensures a in RestoreFrom(s, i).plants ==> a in s.plants && RestoreFrom(s, i).plants[a] == s.plants[a]
    decreases |s.list| - i
  {
    if a in RestoreFrom(s, i).plants {
      if i >= |s.list| {
      } else {
        if s.list[i].address != 0 && HandleId(s.list[i]) in s.threads {
          LastPlantIsKeptFrom(RestoreCode(s, s.list[i].address), a, i + 1);
        } else {
          LastPlantIsKeptFrom(s, a, i + 1);
        }
      }
    }
  }

  lemma LastPlantIsKept(s: State, a: int)
    ensures a in ClearAll(s).plants ==> a in s.plants && ClearAll(s).plants[a] == s.plants[a]
  {
    if a in ClearAll(s).plants {
      LastPlantIsKeptFrom(s, a, 0);
    }
  }
}
