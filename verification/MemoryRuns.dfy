/** Runs of writes, sets, clears and thread deaths: what the driver shows of memory after each, and when
    that is what a memory without breakpoints would hold. */
module MemoryRuns {
  import opened Wrappers
  import opened CodeMemory
  import opened Breakpoints
  import opened BreakpointRuns
  import opened MemoryView

  // ---------------------------------------------------------------- set under the view

  /** What a new breakpoint saves: the text where its bytes are free, the planted break instruction
      where another user breakpoint already has the address. */
  lemma WhatSetSaves(s: State, text: Memory, after: State, err: Error, entry: BreakEntry)
    requires SetDone(s, after, err, entry) && err == ErrNone && Inv(s) && FreeText(s, text) && Fits(s, entry)
    ensures !UserAt(s, entry.address) ==> Saves(text, entry)
    ensures UserAt(s, entry.address) ==> Invisible(entry)
    ensures Saves(text, entry) <==> (!UserAt(s, entry.address)
      || forall x :: Covers(entry.address, entry.mode, x) ==>
           x in text && text[x] == BreakBytes(entry.mode)[x - entry.address])
  {
    hide Inv;
    hide FreeText;
    hide Fits;
    hide Saves;
    hide UserAt;
    if UserAt(s, entry.address) {
      SavesBreakInstruction(s, after, err, entry);
      SavesInvisibleIff(text, entry);
    } else {
      SavesFreeBytes(s, text, after, err, entry);
    }
  }

  lemma SavesInvisibleIff(text: Memory, entry: BreakEntry)
    requires Invisible(entry)
    ensures Saves(text, entry) <==> forall x :: Covers(entry.address, entry.mode, x) ==>
      x in text && text[x] == BreakBytes(entry.mode)[x - entry.address]
  {
  }

  lemma SavesBreakInstruction(s: State, after: State, err: Error, entry: BreakEntry)
    requires SetDone(s, after, err, entry) && err == ErrNone && Inv(s) && Fits(s, entry)
    requires UserAt(s, entry.address)
    ensures Invisible(entry)
  {
    var i :| s.IsUser(i) && s.list[i].address == entry.address;
    assert UserOk(s, s.list[i]) && SamePlace(s.list[i], entry.address, entry.mode);
    InvPatched(s);
    assert s.plants[entry.address].mode == entry.mode;
    assert Mapped(s.raw, entry.address, BreakSize(entry.mode))
      && entry.instruction == Peek(s.raw, entry.address, BreakSize(entry.mode));
    hide Inv;
    hide SetDone;
    PatchedShows(s, entry);
    hide Patched;
    forall k | 0 <= k < BreakSize(entry.mode) ensures entry.instruction[k] == BreakBytes(entry.mode)[k] {
      assert Covers(entry.address, entry.mode, entry.address + k);
    }
  }

  lemma FreeByte(s: State, entry: BreakEntry, x: int)
    requires Inv(s) && Fits(s, entry) && !UserAt(s, entry.address) && Supported(entry.mode)
    requires Covers(entry.address, entry.mode, x)
    ensures Uncovered(s.plants, x)
  {
    forall p | p in s.plants ensures !Covers(p, s.plants[p].mode, x) {
      var i :| s.IsUser(i) && s.list[i].address == p;
      assert SamePlace(s.list[i], entry.address, entry.mode);
    }
  }

  lemma SetReads(s: State, after: State, err: Error, entry: BreakEntry)
    ensures SetDone(s, after, err, entry) && err == ErrNone ==>
      Supported(entry.mode) && Aligned(entry.address, entry.mode)
    ensures SetDone(s, after, err, entry) && err == ErrNone ==> Mapped(s.raw, entry.address, BreakSize(entry.mode))
    ensures SetDone(s, after, err, entry) && err == ErrNone ==>
      entry.instruction == Peek(s.raw, entry.address, BreakSize(entry.mode))
  {
    hide FirstConflict;
    hide AlreadySet;
  }

  lemma FreeByteText(s: State, text: Memory, x: int)
    requires Patched(s.raw, s.base, s.plants) && FreeText(s, text) && Uncovered(s.plants, x) && x in s.raw
    ensures x in text && text[x] == s.raw[x]
  {
    hide Apart;
    hide Recorded;
    hide Uncovered;
  }

  lemma SavesFreeBytes(s: State, text: Memory, after: State, err: Error, entry: BreakEntry)
    requires SetDone(s, after, err, entry) && err == ErrNone && Inv(s) && FreeText(s, text) && Fits(s, entry)
    requires !UserAt(s, entry.address)
    ensures Saves(text, entry)
  {
    hide SetDone;
    hide Inv;
    hide Fits;
    hide UserAt;
    hide Patched;
    hide FreeText;
    hide Uncovered;
    InvPatched(s);
    SetReads(s, after, err, entry);
    forall x | Covers(entry.address, entry.mode, x) ensures x in text && text[x] == entry.instruction[x - entry.address] {
      FreeByte(s, entry, x);
      FreeByteText(s, text, x);
    }
  }

  lemma {:induction false} LastOverlayWins(list: seq<BreakEntry>, address: Address, data: seq<Byte>, i: nat)
    requires i < |list| && |data| == 4 && address + 4 < ADDRESS_SPACE
    requires forall k :: i <= k < |list| && list[k].breakId >= TEMP_BREAKS ==> Supported(list[k].mode)
    requires var last := list[|list| - 1];
      last.breakId >= TEMP_BREAKS && last.address == address && |last.instruction| == 4
    ensures Overlay(list, address, data, i) == (ErrNone, list[|list| - 1].instruction)
    decreases |list| - i
  {
    InBlockBelowTop(list[i], address, 4);
    if i == |list| - 1 {
      assert Splice(data, 0, list[i].instruction) == list[i].instruction;
    } else {
      var next := if list[i].breakId >= TEMP_BREAKS && InBlock(list[i], address, 4)
        then Splice(data, list[i].address - address, list[i].instruction) else data;
      LastOverlayWins(list, address, next, i + 1);
    }
  }

  /** Two breakpoints of different scopes may share an address, and then the second saves the first
      one's break instruction: from there on a read of the word shows that instead of the text. */
  lemma SharedAddressHidesText(s: State, after: State, err: Error, entry: BreakEntry)
    requires SetDone(s, after, err, entry) && err == ErrNone && Inv(s) && Fits(s, entry)
    requires UserAt(s, entry.address) && entry.mode == Arm && entry.address + 4 < ADDRESS_SPACE
    ensures ReadMemory(after, entry.address, 4) == (ErrNone, BreakBytes(Arm))
  {
    SavesBreakInstruction(s, after, err, entry);
    forall k | 0 <= k < |after.list| && after.list[k].breakId >= TEMP_BREAKS ensures Supported(after.list[k].mode) {
      if k < |s.list| {
        UserIffHighId(s, k);
        assert UserOk(s, s.list[k]);
      }
    }
    LastOverlayWins(after.list, entry.address, Peek(after.raw, entry.address, 4), 0);
  }

  ghost predicate FreeOf(s: State, address: int, mode: Mode) {
    forall i :: s.IsUser(i) ==> !Intersect(s.list[i].address, s.list[i].mode, address, mode)
  }

  lemma FreeHasNoUser(s: State, address: int, mode: Mode)
    ensures Inv(s) && FreeOf(s, address, mode) && Supported(mode) ==> !UserAt(s, address)
  {
    if Inv(s) && FreeOf(s, address, mode) && Supported(mode) {
      forall i | s.IsUser(i) ensures s.list[i].address != address {
        assert UserOk(s, s.list[i]);
      }
    }
  }

  /** Planting more keeps the free text. */
  lemma PlantKeepsFreeText(s: State, after: State, text: Memory)
    requires FreeText(s, text) && after.base == s.base
    requires forall p :: p in s.plants ==> p in after.plants && after.plants[p] == s.plants[p]
    ensures FreeText(after, text)
  {
    forall x | x in text && Uncovered(after.plants, x) ensures Uncovered(s.plants, x) {
      forall p | p in s.plants ensures !Covers(p, s.plants[p].mode, x) {
        assert p in after.plants;
      }
    }
  }

  lemma FreeFits(s: State, entry: BreakEntry)
    ensures FreeOf(s, entry.address, entry.mode) ==> Fits(s, entry)
  {
  }

  /** What a set where no user breakpoint stands adds to the view. */
  lemma SetSavesAll(s: State, text: Memory, after: State, err: Error, entry: BreakEntry)
    requires SetDone(s, after, err, entry) && Inv(s) && AllSave(s, text) && FreeText(s, text)
    requires FreeOf(s, entry.address, entry.mode)
    ensures AllSave(after, text) && FreeText(after, text)
  {
    hide Inv;
    hide Fits;
    hide Saves;
    hide UserAt;
    hide FirstConflict;
    hide AlreadySet;
    FreeFits(s, entry);
    if err == ErrNone {
      FreeHasNoUser(s, entry.address, entry.mode);
      hide FreeOf;
      WhatSetSaves(s, text, after, err, entry);
      SetPlants(s, after, err, entry);
      PlantKeepsFreeText(s, after, text);
    }
  }

  lemma SetKeepsApart(s: State, after: State, err: Error, entry: BreakEntry)
    requires SetDone(s, after, err, entry) && UsersApart(s) && FreeOf(s, entry.address, entry.mode)
    ensures UsersApart(after)
  {
  }

  lemma SetKeepsView(s: State, text: Memory, after: State, err: Error, entry: BreakEntry)
    requires SetDone(s, after, err, entry) && View(s, text)
    requires FreeOf(s, entry.address, entry.mode)
    ensures View(after, text)
  {
    hide Inv;
    hide SetDone;
    hide Fits;
    hide FreeOf;
    hide UsersApart;
    hide AllSave;
    hide FreeText;
    FreeFits(s, entry);
    SetKeepsInv(s, after, err, entry);
    SetSavesAll(s, text, after, err, entry);
    SetKeepsApart(s, after, err, entry);
  }

  // ---------------------------------------------------------------- the text is the state's own

  /** A state under the view shows one text only. */
  lemma ViewDetermines(s: State, text: Memory, other: Memory)
    ensures View(s, text) && View(s, other) ==> text == other
  {
    if View(s, text) && View(s, other) {
      forall x | x in text ensures text[x] == other[x] {
        if !Uncovered(s.plants, x) {
          var p :| p in s.plants && Covers(p, s.plants[p].mode, x);
          var i :| s.IsUser(i) && s.list[i].address == p;
          assert Saves(text, s.list[i]) && Saves(other, s.list[i]) && Covers(s.list[i].address, s.list[i].mode, x);
        }
      }
    }
  }

  // ---------------------------------------------------------------- clear under the view

  lemma DropKeepsUsersApart(s: State, after: State, index: nat)
    requires UsersApart(s) && index < |s.list| && after.list == Dropped(s.list, index)
    ensures UsersApart(after)
  {
    forall i, j | TEMP_BREAKS <= i < j < |after.list|
      ensures !Intersect(after.list[i].address, after.list[i].mode, after.list[j].address, after.list[j].mode)
    {
      DroppedAt(s.list, index, i);
      DroppedAt(s.list, index, j);
    }
  }

  lemma NoneShared(s: State, index: nat)
    ensures Inv(s) && UsersApart(s) && s.IsUser(index) ==> !Shared(s, index)
  {
    if Inv(s) && UsersApart(s) && s.IsUser(index) {
      assert UserOk(s, s.list[index]);
      forall i | s.IsUser(i) && i != index ensures s.list[i].address != s.list[index].address {
        assert UserOk(s, s.list[i]);
      }
    }
  }

  /** A clear of a user breakpoint with a live handle restores the bytes remembered for its place. */
  lemma ClearUnplants(s: State, text: Memory, after: State, err: Error, index: nat)
    requires ClearDone(s, after, err, index) && View(s, text) && err == ErrNone
    requires s.IsUser(index) && HandleId(s.list[index]) in s.threads
    ensures s.list[index].address in s.plants && after.plants == s.plants - {s.list[index].address as int}
  {
    hide Patched;
    NoneShared(s, index);
    OverlapIsSameAddress(s, index);
    hide ListOk;
    hide OverlappedByOther;
    hide Shared;
  }

  /** Bytes put back where an entry stood. */
  function PutBack(s: State, text: Memory, entry: BreakEntry): Memory
    requires entry.address in s.plants
  {
    Poke(text, entry.address, s.plants[entry.address].original)
  }

  lemma RecordedLength(s: State, text: Memory, index: nat)
    requires View(s, text) && s.IsUser(index)
    ensures s.list[index].address in s.plants
    ensures |s.plants[s.list[index].address].original| == BreakSize(s.list[index].mode)
  {
    InvPatched(s);
  }

  lemma ClearSavesRest(s: State, text: Memory, after: State, index: nat)
    requires View(s, text) && s.IsUser(index) && s.list[index].address in s.plants
    requires after.list == Dropped(s.list, index)
    ensures AllSave(after, PutBack(s, text, s.list[index]))
  {
    RecordedLength(s, text, index);
    hide View;
    hide Saves;
    hide PutBack;
    forall i | after.IsUser(i) ensures Saves(PutBack(s, text, s.list[index]), after.list[i]) {
      DroppedAt(s.list, index, i);
      assert Saves(PutBack(s, text, s.list[index]), s.list[Origin(index, i)]) by {
        OthersApart(s, text, index, Origin(index, i));
        ViewIsSeated(s, text, Origin(index, i));
        hide View;
        hide UserOk;
      }
    }
  }

  lemma PutBackByte(s: State, text: Memory, p: int, x: int)
    requires Recorded(s.base, s.plants) && FreeText(s, text) && p in s.plants && x in text
    requires Uncovered(s.plants - {p}, x)
    ensures Poke(text, p, s.plants[p].original)[x] == s.base[x]
  {
    if !Covers(p, s.plants[p].mode, x) {
      forall q | q in s.plants ensures !Covers(q, s.plants[q].mode, x) {
        if q != p {
          assert q in s.plants - {p};
        }
      }
    }
  }

  lemma PutBackFree(s: State, text: Memory, after: State, index: nat)
    requires View(s, text) && s.IsUser(index) && s.list[index].address in s.plants
    requires after.base == s.base && after.plants == s.plants - {s.list[index].address as int}
    ensures FreeText(after, PutBack(s, text, s.list[index]))
  {
    InvPatched(s);
    hide Inv;
    forall x | x in text && Uncovered(after.plants, x) ensures PutBack(s, text, s.list[index])[x] == s.base[x] {
      PutBackByte(s, text, s.list[index].address, x);
    }
  }

  /** A clear puts back the bytes that the breakpoint's planting replaced: the text loses whatever was
      written there since. */
  lemma ClearShowsRecorded(s: State, text: Memory, after: State, err: Error, index: nat)
    requires ClearDone(s, after, err, index) && View(s, text) && err == ErrNone
    requires s.IsUser(index) && HandleId(s.list[index]) in s.threads
    ensures s.list[index].address in s.plants && View(after, PutBack(s, text, s.list[index]))
  {
    ClearUnplants(s, text, after, err, index);
    ClearKeepsInv(s, after, err, index);
    DropKeepsUsersApart(s, after, index);
    ClearSavesRest(s, text, after, index);
    PutBackFree(s, text, after, index);
    hide Inv;
    hide UsersApart;
    hide AllSave;
    hide FreeText;
    hide PutBack;
  }

  /** Putting the remembered bytes back changes the text exactly where the breakpoint's place was rewritten. */
  lemma PutBackIsSameIff(s: State, text: Memory, entry: BreakEntry)
    requires Saves(text, entry) && entry.address in s.plants
    requires |s.plants[entry.address].original| == BreakSize(entry.mode)
    ensures PutBack(s, text, entry) == text <==> !Rewritten(s, entry)
  {
    var original := s.plants[entry.address].original;
    if PutBack(s, text, entry) == text {
      forall k | 0 <= k < BreakSize(entry.mode) ensures entry.instruction[k] == original[k] {
        assert Covers(entry.address, entry.mode, entry.address + k);
        assert PutBack(s, text, entry)[entry.address + k] == original[k];
      }
    }
    if !Rewritten(s, entry) {
      forall x | x in text ensures PutBack(s, text, entry)[x] == text[x] {
        assert Covers(entry.address, entry.mode, x) ==> text[x] == original[x - entry.address];
      }
    }
  }

  /** The clear unplants a breakpoint whose place was written since it was planted. */
  ghost predicate LosesWrite(s: State, breakId: int) {
    var index := Find(s.list, breakId, 0);
    s.IsUser(index) && HandleId(s.list[index]) in s.threads && Rewritten(s, s.list[index])
  }

  lemma SameUsersSameView(s: State, text: Memory, after: State)
    requires View(s, text) && Inv(after)
    requires |after.list| == |s.list| && (forall i :: s.IsUser(i) ==> after.list[i] == s.list[i])
    requires after.plants == s.plants && after.base == s.base
    ensures View(after, text)
  {
    hide Inv;
    hide Saves;
  }

  lemma ClearTempKeepsView(s: State, text: Memory, after: State, err: Error, index: nat)
    requires ClearDone(s, after, err, index) && View(s, text) && err == ErrNone && index < TEMP_BREAKS
    ensures View(after, text)
  {
    hide Inv;
    hide View;
    hide OverlappedByOther;
    assert Inv(s) by {
      ViewInv(s, text);
    }
    ClearTempKeepsPlants(s, index);
    ClearKeepsInv(s, after, err, index);
    SameUsersSameView(s, text, after);
  }

  lemma ViewInv(s: State, text: Memory)
    ensures View(s, text) ==> Inv(s) && ListOk(s) && ScopesApart(s)
  {
    hide ListOk;
    if View(s, text) {
      assert ScopesApart(s);
    }
  }

  lemma ClearKeepsView(s: State, text: Memory, after: State, err: Error, index: nat)
    requires ClearDone(s, after, err, index) && View(s, text) && err == ErrNone
    requires s.IsUser(index) && HandleId(s.list[index]) in s.threads
    ensures View(after, text) <==> !Rewritten(s, s.list[index])
  {
    hide ClearDone;
    hide Rewritten;
    hide PutBack;
    ClearShowsRecorded(s, text, after, err, index);
    RecordedLength(s, text, index);
    assert Saves(text, s.list[index]);
    PutBackIsSameIff(s, text, s.list[index]);
    hide View;
    if View(after, text) {
      ViewDetermines(after, text, PutBack(s, text, s.list[index]));
    }
  }

  /** A clear leaves the text as it is exactly when it leaves no location planted that nobody has, and
      unplants none that was written since it was planted. */
  lemma ClearKeepsTextIff(s: State, text: Memory, breakId: int, ignoreTerminated: bool)
    requires View(s, text)
    ensures View(ClearBreak(s, breakId, ignoreTerminated).0, text) <==>
      !LeavesPlanted(s, breakId, ignoreTerminated) && !LosesWrite(s, breakId)
  {
    var after, err, index := ClearShape(s, breakId, ignoreTerminated);
    FindIsMember(s.list, breakId, 0);
    if err != ErrNone {
      RefusedClear(s, breakId, ignoreTerminated);
    } else if index < TEMP_BREAKS {
      ClearTempKeepsView(s, text, after, err, index);
    } else if HandleId(s.list[index]) in s.threads {
      ClearKeepsView(s, text, after, err, index);
    } else {
      NoneShared(s, index);
      DropBreaksCount(s, after, err, index);
    }
  }

  lemma RefusedClear(s: State, breakId: int, ignoreTerminated: bool)
    ensures ClearBreak(s, breakId, ignoreTerminated).1 != ErrNone ==> ClearBreak(s, breakId, ignoreTerminated).0 == s
    ensures ClearBreak(s, breakId, ignoreTerminated).1 != ErrNone ==>
      !LeavesPlanted(s, breakId, ignoreTerminated) && !LosesWrite(s, breakId)
  {
  }

  // ---------------------------------------------------------------- threads under the view

  lemma StartKeepsView(s: State, text: Memory, threadId: nat, processId: nat)
    ensures View(s, text) ==> View(StartThread(s, threadId, processId), text)
  {
    hide View;
    hide Inv;
    hide ListOk;
    hide ScopesApart;
    hide UsedThreadId;
    if View(s, text) {
      ViewInv(s, text);
      ThreadStartKeeps(s, threadId, processId);
      SameUsersSameView(s, text, StartThread(s, threadId, processId));
    }
  }

  lemma DroppedKeeps(list: seq<BreakEntry>, index: nat, e: BreakEntry)
    ensures TEMP_BREAKS <= index < |list| && e in list && e != list[index] ==> e in Dropped(list, index)
  {
    if TEMP_BREAKS <= index < |list| && e in list && e != list[index] {
      var i :| 0 <= i < |list| && list[i] == e;
      var k := if i < index then i else i - 1;
      assert Dropped(list, index)[k] == e;
    }
  }

  /** Removing a thread's breakpoints keeps all others. */
  lemma {:induction false} RemovalSpares(s: State, threadId: nat, i: nat, e: BreakEntry)
    requires ListOk(s) && ScopesApart(s) && e in s.list && !GoesWith(e, threadId)
    ensures e in RemoveThreadBreaks(s, threadId, i).list
    decreases i
  {
    hide ListOk;
    hide ScopesApart;
    hide ClearBreak;
    if i == 0 || i > |s.list| {
    } else if GoesWith(s.list[i - 1], threadId) {
      GoesIsUser(s, threadId, i - 1);
      ClearLive(s, i - 1);
      DroppedKeeps(s.list, i - 1, e);
      var cleared := ClearKeeps(s, s.list[i - 1].breakId, false);
      RemovalSpares(cleared, threadId, i - 1, e);
    } else {
      RemovalSpares(s, threadId, i - 1, e);
    }
  }

  lemma GoesIsUser(s: State, threadId: nat, i: nat)
    ensures ListOk(s) && i < |s.list| && GoesWith(s.list[i], threadId) ==>
      s.IsUser(i) && HandleId(s.list[i]) in s.threads
  {
    if ListOk(s) && i < |s.list| && GoesWith(s.list[i], threadId) {
      assert s.IsUser(i) && UserOk(s, s.list[i]);
    }
  }

  /** A death drops the thread's breakpoints and no other; memory is patched at what remains. */
  ghost predicate DeathDone(s: State, after: State, threadId: nat) {
    && Inv(after)
    && after.base == s.base
    && (forall e :: e in after.list && e.breakId >= TEMP_BREAKS ==> e in s.list && !GoesWith(e, threadId))
    && (forall e :: e in s.list && !GoesWith(e, threadId) ==> e in after.list)
  }

  lemma NoneNew(s: State, after: State)
    ensures ListOk(after) && after.nextId == s.nextId && EntriesFrom(s, after) ==>
      forall e :: e in after.list && e.breakId >= TEMP_BREAKS ==> e in s.list
  {
    if ListOk(after) && after.nextId == s.nextId && EntriesFrom(s, after) {
      forall e | e in after.list ensures e.breakId < s.nextId {
        var i :| 0 <= i < |after.list| && after.list[i] == e;
      }
    }
  }

  lemma DeathShape(s: State, text: Memory, threadId: nat)
    ensures View(s, text) ==> DeathDone(s, Step(s, ThreadDies(threadId)), threadId)
  {
    hide View;
    hide Inv;
    hide ListOk;
    hide ScopesApart;
    hide RemoveThreadBreaks;
    hide GoesWith;
    if View(s, text) {
      ViewInv(s, text);
      ThreadDeathKeeps(s, threadId);
      DeathRemovesAll(s, threadId, |s.list|);
      var after := Step(s, ThreadDies(threadId));
      forall e | e in s.list && !GoesWith(e, threadId) ensures e in after.list {
        RemovalSpares(s, threadId, |s.list|, e);
      }
      NoneNew(s, after);
      hide EntriesFrom;
    }
  }

  /** The text once a thread has died: where its breakpoints stood, the bytes remembered for them. */
  ghost function DeathText(s: State, text: Memory, threadId: nat): (result: Memory)
    ensures result.Keys == text.Keys
  {
    map x | x in text :: if x in s.base && StoodOn(s, threadId, x) then s.base[x] else text[x]
  }

  /** Some breakpoint that goes with the thread covers the byte. */
  ghost predicate StoodOn(s: State, threadId: nat, x: int) {
    exists i :: s.IsUser(i) && GoesWith(s.list[i], threadId) && Covers(s.list[i].address, s.list[i].mode, x)
  }

  lemma ApartEntries(s: State, e: BreakEntry, f: BreakEntry)
    requires UsersApart(s) && Ordered(s) && e in s.list && f in s.list
    requires e.breakId >= TEMP_BREAKS && f.breakId >= TEMP_BREAKS && e != f
    ensures !Intersect(e.address, e.mode, f.address, f.mode)
  {
    var i :| 0 <= i < |s.list| && s.list[i] == e;
    var j :| 0 <= j < |s.list| && s.list[j] == f;
    UserIffHighId(s, i);
    UserIffHighId(s, j);
    if j < i {
      assert !Intersect(s.list[j].address, s.list[j].mode, s.list[i].address, s.list[i].mode);
    }
  }

  lemma DeathKeepsApart(s: State, after: State, threadId: nat)
    requires UsersApart(s) && Ordered(s) && Ordered(after) && DeathDone(s, after, threadId)
    ensures UsersApart(after)
  {
    hide Inv;
    hide UsersApart;
    forall i, j | TEMP_BREAKS <= i < j < |after.list|
      ensures !Intersect(after.list[i].address, after.list[i].mode, after.list[j].address, after.list[j].mode)
    {
      UserIffHighId(after, i);
      UserIffHighId(after, j);
      ApartEntries(s, after.list[i], after.list[j]);
    }
    ApartUsers(after);
  }

  lemma ApartUsers(s: State)
    requires forall i, j :: TEMP_BREAKS <= i < j < |s.list| ==>
      !Intersect(s.list[i].address, s.list[i].mode, s.list[j].address, s.list[j].mode)
    ensures UsersApart(s)
  {
  }

  lemma DeathSaves(s: State, text: Memory, after: State, threadId: nat, i: nat)
    requires View(s, text) && DeathDone(s, after, threadId) && after.IsUser(i)
    ensures Saves(DeathText(s, text, threadId), after.list[i])
  {
    hide Inv;
    var e := after.list[i];
    assert Ordered(s) && Ordered(after) by {
      InvOrdered(s);
      InvOrdered(after);
    }
    UserIffHighId(after, i);
    var k :| 0 <= k < |s.list| && s.list[k] == e;
    UserIffHighId(s, k);
    assert Saves(text, e);
    forall x | Covers(e.address, e.mode, x) ensures !StoodOn(s, threadId, x) {
      forall j | s.IsUser(j) && GoesWith(s.list[j], threadId) ensures !Covers(s.list[j].address, s.list[j].mode, x) {
        OthersApart(s, text, j, k);
      }
    }
  }

  lemma InvOrdered(s: State)
    requires Inv(s)
    ensures Ordered(s) && Counted(s)
  {
  }

  lemma StaysPlanted(s: State, after: State, threadId: nat, i: nat)
    requires Inv(s) && DeathDone(s, after, threadId) && s.IsUser(i) && !GoesWith(s.list[i], threadId)
    ensures s.list[i].address in after.plants && after.plants[s.list[i].address].mode == s.list[i].mode
  {
    InvOrdered(s);
    InvOrdered(after);
    hide Inv;
    UserIffHighId(s, i);
    var k :| 0 <= k < |after.list| && after.list[k] == s.list[i];
    UserIffHighId(after, k);
    assert after.IsUser(k);
  }

  lemma DeathFree(s: State, text: Memory, after: State, threadId: nat, x: int)
    requires View(s, text) && DeathDone(s, after, threadId)
    requires x in text && Uncovered(after.plants, x) && !StoodOn(s, threadId, x)
    ensures Uncovered(s.plants, x)
  {
    InvOrdered(s);
    hide View;
    hide Inv;
    hide DeathDone;
    hide GoesWith;
    forall p | p in s.plants ensures !Covers(p, s.plants[p].mode, x) {
      var i :| s.IsUser(i) && s.list[i].address == p;
      assert s.plants[p].mode == s.list[i].mode;
      if !GoesWith(s.list[i], threadId) {
        StaysPlanted(s, after, threadId, i);
      }
    }
  }

  /** A death puts the remembered bytes back under each of the thread's breakpoints, and shows the rest as before. */
  lemma DeathShowsRecorded(s: State, text: Memory, threadId: nat)
    requires View(s, text)
    ensures View(Step(s, ThreadDies(threadId)), DeathText(s, text, threadId))
  {
    var after := Step(s, ThreadDies(threadId));
    DeathShape(s, text, threadId);
    InvOrdered(s);
    InvOrdered(after);
    DeathKeepsApart(s, after, threadId);
    hide Step;
    forall i | after.IsUser(i) ensures Saves(DeathText(s, text, threadId), after.list[i]) {
      DeathSaves(s, text, after, threadId, i);
    }
    forall x | x in text && Uncovered(after.plants, x) ensures DeathText(s, text, threadId)[x] == s.base[x] {
      if !StoodOn(s, threadId, x) {
        DeathFree(s, text, after, threadId, x);
      }
    }
    hide Inv;
    hide UsersApart;
    hide Saves;
    hide StoodOn;
  }

  /** A breakpoint that goes with the thread stands where something was written since it was planted. */
  ghost predicate DeathLosesWrite(s: State, threadId: nat) {
    exists i :: s.IsUser(i) && GoesWith(s.list[i], threadId) && Rewritten(s, s.list[i])
  }

  lemma RecordedBytes(s: State, text: Memory, i: nat)
    ensures View(s, text) && s.IsUser(i) ==> s.list[i].address in s.plants && Saves(text, s.list[i])
    ensures View(s, text) && s.IsUser(i) ==> Mapped(s.base, s.list[i].address, BreakSize(s.list[i].mode))
    ensures View(s, text) && s.IsUser(i) ==>
      s.plants[s.list[i].address].original == Peek(s.base, s.list[i].address, BreakSize(s.list[i].mode))
  {
    if View(s, text) && s.IsUser(i) {
      InvPatched(s);
      hide Apart;
    }
  }

  lemma SavedDiffers(text: Memory, base: Memory, entry: BreakEntry) returns (x: int)
    requires Saves(text, entry) && Mapped(base, entry.address, BreakSize(entry.mode))
    requires entry.instruction != Peek(base, entry.address, BreakSize(entry.mode))
    ensures Covers(entry.address, entry.mode, x) && x in text && x in base && text[x] != base[x]
  {
    var original := Peek(base, entry.address, BreakSize(entry.mode));
    assert exists k :: 0 <= k < BreakSize(entry.mode) && entry.instruction[k] != original[k];
    var k :| 0 <= k < BreakSize(entry.mode) && entry.instruction[k] != original[k];
    x := entry.address + k;
    assert Covers(entry.address, entry.mode, x);
  }

  lemma SavedAgrees(text: Memory, base: Memory, entry: BreakEntry, x: int)
    requires Saves(text, entry) && Mapped(base, entry.address, BreakSize(entry.mode))
    requires entry.instruction == Peek(base, entry.address, BreakSize(entry.mode)) && Covers(entry.address, entry.mode, x)
    ensures x in text && x in base && text[x] == base[x]
  {
  }

  lemma RewrittenByte(s: State, text: Memory, i: nat) returns (x: int)
    requires View(s, text) && s.IsUser(i) && Rewritten(s, s.list[i])
    ensures Covers(s.list[i].address, s.list[i].mode, x) && x in text && x in s.base && text[x] != s.base[x]
  {
    hide View;
    hide Saves;
    RecordedBytes(s, text, i);
    x := SavedDiffers(text, s.base, s.list[i]);
  }

  lemma KeptByte(s: State, text: Memory, i: nat, x: int)
    requires View(s, text) && s.IsUser(i) && !Rewritten(s, s.list[i])
    requires Covers(s.list[i].address, s.list[i].mode, x)
    ensures x in text && x in s.base && text[x] == s.base[x]
  {
    hide View;
    hide Saves;
    RecordedBytes(s, text, i);
    SavedAgrees(text, s.base, s.list[i], x);
  }

  /** A death leaves the text as it is exactly when none of its breakpoints stands on rewritten bytes. */
  lemma DeathKeepsTextIff(s: State, text: Memory, threadId: nat)
    requires View(s, text)
    ensures DeathText(s, text, threadId) == text <==> !DeathLosesWrite(s, threadId)
    ensures View(Step(s, ThreadDies(threadId)), text) <==> !DeathLosesWrite(s, threadId)
  {
    hide View;
    hide Rewritten;
    hide GoesWith;
    hide Step;
    ViewKeys(s, text);
    if DeathLosesWrite(s, threadId) {
      var i :| s.IsUser(i) && GoesWith(s.list[i], threadId) && Rewritten(s, s.list[i]);
      var x := RewrittenByte(s, text, i);
      assert StoodOn(s, threadId, x);
    } else {
      forall x | x in text ensures DeathText(s, text, threadId)[x] == text[x] {
        if StoodOn(s, threadId, x) {
          var i :| s.IsUser(i) && GoesWith(s.list[i], threadId) && Covers(s.list[i].address, s.list[i].mode, x);
          KeptByte(s, text, i, x);
        }
      }
    }
    DeathShowsRecorded(s, text, threadId);
    if View(Step(s, ThreadDies(threadId)), text) {
      ViewDetermines(Step(s, ThreadDies(threadId)), text, DeathText(s, text, threadId));
    }
  }

  lemma ViewKeys(s: State, text: Memory)
    ensures View(s, text) ==> text.Keys == s.base.Keys
  {
  }

  // ---------------------------------------------------------------- the driver as a plain byte memory

  datatype Operation =
    | Write(address: Address, data: seq<Byte>)
    | Break(request: Request)

  function Perform(s: State, op: Operation): State {
    match op
    case Write(address, data) => WriteMemory(s, address, data).0
    case Break(request) => Step(s, request)
  }

  function PerformAll(s: State, ops: seq<Operation>): State
    decreases |ops|
  {
    if ops == [] then s else PerformAll(Perform(s, ops[0]), ops[1..])
  }

  /** A memory that knows only writes. */
  function PlainStep(memory: Memory, op: Operation): Memory {
    if op.Write? then Poke(memory, op.address, op.data) else memory
  }

  function PlainMemory(memory: Memory, ops: seq<Operation>): Memory
    decreases |ops|
  {
    if ops == [] then memory else PlainMemory(PlainStep(memory, ops[0]), ops[1..])
  }

  /** An accepted, mapped block below the top of the address space; a breakpoint set where no user
      breakpoint stands; a clear that leaves no location planted that nobody has. */
  ghost predicate Proper(s: State, op: Operation) {
    match op
    case Write(address, data) =>
      Accepted(address, |data|) && address + |data| < ADDRESS_SPACE && Mapped(s.base, address, |data|)
    case Break(request) =>
      && (request.Set? ==> FreeOf(s, request.address, request.mode))
      && (request.Clear? ==> !LeavesPlanted(s, request.breakId, request.ignoreTerminated))
  }

  /** The text after an operation: a clear and a death put back what the code modifier remembers. */
  ghost function TextAfter(s: State, text: Memory, op: Operation): Memory {
    match op
    case Write(address, data) => Poke(text, address, data)
    case Break(Set(_, _, _, _)) => text
    case Break(ThreadStarts(_, _)) => text
    case Break(Clear(breakId, _)) =>
      var index := Find(s.list, breakId, 0);
      if s.IsUser(index) && HandleId(s.list[index]) in s.threads && s.list[index].address in s.plants
      then PutBack(s, text, s.list[index]) else text
    case Break(ThreadDies(threadId)) => DeathText(s, text, threadId)
  }

  lemma ClearShows(s: State, text: Memory, breakId: int, ignoreTerminated: bool)
    requires View(s, text) && !LeavesPlanted(s, breakId, ignoreTerminated)
    ensures View(ClearBreak(s, breakId, ignoreTerminated).0, TextAfter(s, text, Break(Clear(breakId, ignoreTerminated))))
  {
    hide View;
    hide ClearDone;
    hide ClearBreak;
    hide LeavesPlanted;
    hide PutBack;
    hide LosesWrite;
    var after, err, index := ClearShape(s, breakId, ignoreTerminated);
    FindIsMember(s.list, breakId, 0);
    hide Find;
    if err == ErrNone && index >= TEMP_BREAKS && HandleId(s.list[index]) in s.threads {
      ClearShowsRecorded(s, text, after, err, index);
    } else {
      ClearKeepsTextIff(s, text, breakId, ignoreTerminated);
      if err != ErrNone {
        RefusedIsDead(s, breakId, ignoreTerminated);
      }
      NothingPutBack(s, breakId);
    }
  }

  lemma RefusedIsDead(s: State, breakId: int, ignoreTerminated: bool)
    ensures ClearBreak(s, breakId, ignoreTerminated).1 != ErrNone ==>
      var index := Find(s.list, breakId, 0); !(s.IsUser(index) && HandleId(s.list[index]) in s.threads)
  {
  }

  lemma NothingPutBack(s: State, breakId: int)
    requires var index := Find(s.list, breakId, 0);
      !(s.IsUser(index) && HandleId(s.list[index]) in s.threads)
    ensures !LosesWrite(s, breakId)
  {
  }

  lemma PerformShows(s: State, text: Memory, op: Operation)
    ensures View(s, text) && Proper(s, op) ==> View(Perform(s, op), TextAfter(s, text, op))
  {
    hide View;
    hide PutBack;
    hide DeathText;
    if View(s, text) && Proper(s, op) {
      match op
      case Write(address, data) =>
        ViewKeys(s, text);
        WriteWritesText(s, text, address, data);
      case Break(Set(id, threadSpecific, address, mode)) =>
        var after, err, entry := SetShape(s, id, threadSpecific, address, mode);
        SetKeepsView(s, text, after, err, entry);
      case Break(Clear(breakId, ignoreTerminated)) =>
        ClearShows(s, text, breakId, ignoreTerminated);
      case Break(ThreadStarts(threadId, processId)) =>
        StartKeepsView(s, text, threadId, processId);
      case Break(ThreadDies(threadId)) =>
        DeathShowsRecorded(s, text, threadId);
    }
  }

  ghost predicate EachProper(s: State, ops: seq<Operation>)
    decreases |ops|
  {
    ops == [] || (Proper(s, ops[0]) && EachProper(Perform(s, ops[0]), ops[1..]))
  }

  ghost function RunText(s: State, text: Memory, ops: seq<Operation>): Memory
    decreases |ops|
  {
    if ops == [] then text else RunText(Perform(s, ops[0]), TextAfter(s, text, ops[0]), ops[1..])
  }

  lemma {:induction false} RunShowsText(s: State, text: Memory, ops: seq<Operation>)
    ensures View(s, text) && EachProper(s, ops) ==> View(PerformAll(s, ops), RunText(s, text, ops))
    decreases |ops|
  {
    hide View;
    hide Perform;
    hide Proper;
    hide TextAfter;
    if View(s, text) && EachProper(s, ops) {
      if ops == [] {
      } else {
        PerformShows(s, text, ops[0]);
        RunShowsText(Perform(s, ops[0]), TextAfter(s, text, ops[0]), ops[1..]);
      }
    }
  }

  /** Over every proper run, what the driver shows of an accepted block below the top is the text that the
      writes made and the clears and deaths put back to what the code modifier remembered. */
  lemma DriverShowsText(program: Memory, threads: Threads, ops: seq<Operation>, address: Address, length: nat)
    requires EachProper(Fresh(program, threads), ops)
    requires Accepted(address, length) && address + length < ADDRESS_SPACE
    requires Mapped(RunText(Fresh(program, threads), program, ops), address, length)
    ensures ReadMemory(PerformAll(Fresh(program, threads), ops), address, length)
      == (ErrNone, Peek(RunText(Fresh(program, threads), program, ops), address, length))
  {
    hide View;
    hide Fresh;
    FreshView(program, threads);
    RunShowsText(Fresh(program, threads), program, ops);
    ReadShowsText(PerformAll(Fresh(program, threads), ops), RunText(Fresh(program, threads), program, ops), address, length);
  }

  /** A clear or a death unplants a breakpoint whose place was written since it was planted. */
  ghost predicate Loses(s: State, op: Operation) {
    match op
    case Write(_, _) => false
    case Break(request) =>
      match request
      case Set(_, _, _, _) => false
      case Clear(breakId, _) => LosesWrite(s, breakId)
      case ThreadStarts(_, _) => false
      case ThreadDies(threadId) => DeathLosesWrite(s, threadId)
  }

  /** One operation shows what a plain memory would, exactly when it loses no write. */
  lemma PerformIsPlainIff(s: State, text: Memory, op: Operation)
    requires View(s, text) && Proper(s, op)
    ensures View(Perform(s, op), PlainStep(text, op)) <==> !Loses(s, op)
  {
    hide View;
    match op
    case Write(address, data) =>
      ViewKeys(s, text);
      WriteWritesText(s, text, address, data);
    case Break(request) =>
      match request {
        case Set(id, threadSpecific, address, mode) =>
          var after, err, entry := SetShape(s, id, threadSpecific, address, mode);
          SetKeepsView(s, text, after, err, entry);
        case Clear(breakId, ignoreTerminated) =>
          ClearKeepsTextIff(s, text, breakId, ignoreTerminated);
        case ThreadStarts(threadId, processId) =>
          StartKeepsView(s, text, threadId, processId);
        case ThreadDies(threadId) =>
          DeathKeepsTextIff(s, text, threadId);
      }
  }

  /** Every operation of the run is proper and loses no write. */
  ghost predicate AllProper(s: State, ops: seq<Operation>)
    decreases |ops|
  {
    ops == [] || (Proper(s, ops[0]) && !Loses(s, ops[0]) && AllProper(Perform(s, ops[0]), ops[1..]))
  }

  lemma {:induction false} RunIsPlain(s: State, text: Memory, ops: seq<Operation>)
    ensures View(s, text) && AllProper(s, ops) ==> View(PerformAll(s, ops), PlainMemory(text, ops))
    decreases |ops|
  {
    hide View;
    hide Perform;
    hide Proper;
    hide Loses;
    if View(s, text) && AllProper(s, ops) {
      if ops == [] {
      } else {
        PerformIsPlainIff(s, text, ops[0]);
        RunIsPlain(Perform(s, ops[0]), PlainStep(text, ops[0]), ops[1..]);
      }
    }
  }

  lemma {:induction false} PlainKeepsKeys(memory: Memory, ops: seq<Operation>)
    ensures PlainMemory(memory, ops).Keys == memory.Keys
    decreases |ops|
  {
    if ops == [] {
    } else {
      PlainKeepsKeys(PlainStep(memory, ops[0]), ops[1..]);
    }
  }

  /** Over every run from the driver's start of proper writes, sets, clears, thread starts and thread deaths
      that unplants no breakpoint whose place was written since it was planted, what the driver shows of any
      accepted block below the top is what a memory without breakpoints would hold. */
  lemma DriverIsPlainMemory(program: Memory, threads: Threads, ops: seq<Operation>, address: Address, length: nat)
    requires AllProper(Fresh(program, threads), ops)
    requires Accepted(address, length) && address + length < ADDRESS_SPACE && Mapped(program, address, length)
    ensures Mapped(PlainMemory(program, ops), address, length)
    ensures ReadMemory(PerformAll(Fresh(program, threads), ops), address, length)
      == (ErrNone, Peek(PlainMemory(program, ops), address, length))
  {
    hide View;
    hide Fresh;
    FreshView(program, threads);
    RunIsPlain(Fresh(program, threads), program, ops);
    PlainKeepsKeys(program, ops);
    ReadShowsText(PerformAll(Fresh(program, threads), ops), PlainMemory(program, ops), address, length);
  }

  lemma PokeThenPeek(memory: Memory, address: int, data: seq<Byte>)
    ensures Mapped(memory, address, |data|) ==> Peek(Poke(memory, address, data), address, |data|) == data
  {
  }

  /** A write and a read of the same block give the written bytes back, and a write leaves what any
      block apart from it shows alone. */
  lemma ReadAfterWrite(s: State, text: Memory, address: Address, data: seq<Byte>, other: Address, length: nat)
    requires View(s, text) && Proper(s, Write(address, data))
    requires Accepted(other, length) && other + length < ADDRESS_SPACE && Mapped(text, other, length)
    ensures ReadMemory(WriteMemory(s, address, data).0, address, |data|) == (ErrNone, data)
    ensures other + length <= address || address + |data| <= other ==>
      ReadMemory(WriteMemory(s, address, data).0, other, length) == ReadMemory(s, other, length)
  {
    hide View;
    hide ReadMemory;
    hide WriteMemory;
    var after, now := WriteMemory(s, address, data).0, Poke(text, address, data);
    ViewKeys(s, text);
    WriteWritesText(s, text, address, data);
    ReadShowsText(after, now, address, |data|);
    ReadShowsText(after, now, other, length);
    ReadShowsText(s, text, other, length);
    PokeThenPeek(text, address, data);
    if other + length <= address || address + |data| <= other {
      assert Peek(Poke(text, address, data), other, length) == Peek(text, other, length);
    }
  }

  // ---------------------------------------------------------------- a lost write

  lemma SavedIsPeek(text: Memory, entry: BreakEntry)
    ensures Saves(text, entry) ==> Mapped(text, entry.address, BreakSize(entry.mode))
    ensures Saves(text, entry) ==> entry.instruction == Peek(text, entry.address, BreakSize(entry.mode))
  {
    if Saves(text, entry) {
      forall x | entry.address <= x < entry.address + BreakSize(entry.mode) ensures x in text {
        assert Covers(entry.address, entry.mode, x);
      }
      forall k | 0 <= k < BreakSize(entry.mode)
        ensures entry.instruction[k] == Peek(text, entry.address, BreakSize(entry.mode))[k]
      {
        assert Covers(entry.address, entry.mode, entry.address + k);
      }
    }
  }

  /** A set where nothing stands records the text under the new breakpoint. */
  lemma SetRecords(s: State, text: Memory, after: State, err: Error, entry: BreakEntry)
    requires SetDone(s, after, err, entry) && err == ErrNone && View(s, text) && FreeOf(s, entry.address, entry.mode)
    ensures Mapped(text, entry.address, BreakSize(entry.mode)) && entry.address in after.plants
    ensures after.plants[entry.address].original == Peek(text, entry.address, BreakSize(entry.mode))
  {
    hide Inv;
    hide Saves;
    InvOrdered(s);
    FreeFits(s, entry);
    FreeHasNoUser(s, entry.address, entry.mode);
    hide FreeOf;
    hide Fits;
    hide Counted;
    hide UserAt;
    WhatSetSaves(s, text, after, err, entry);
    assert entry.address in after.plants && after.plants[entry.address].original == entry.instruction by {
      forall i | TEMP_BREAKS <= i < |s.list| ensures s.list[i].address != entry.address {
        assert s.IsUser(i);
      }
    }
    SavedIsPeek(text, entry);
  }

  lemma SpliceShowsIff(data: seq<Byte>, offset: nat, bytes: seq<Byte>)
    ensures offset + |bytes| <= |data| ==>
      (Splice(data, offset, bytes) == data <==> data[offset..offset + |bytes|] == bytes)
  {
    if offset + |bytes| <= |data| {
      if Splice(data, offset, bytes) == data {
        forall k | 0 <= k < |bytes| ensures data[offset..offset + |bytes|][k] == bytes[k] {
          assert Splice(data, offset, bytes)[offset + k] == bytes[k];
        }
      }
      if data[offset..offset + |bytes|] == bytes {
        forall k | 0 <= k < |data| ensures Splice(data, offset, bytes)[k] == data[k] {
          assert offset <= k < offset + |bytes| ==> data[offset..offset + |bytes|][k - offset] == data[k];
        }
      }
    }
  }

  /** Bytes put back over written data show spliced into it. */
  lemma PutBackSplices(text: Memory, address: int, data: seq<Byte>, at: int, original: seq<Byte>)
    ensures Mapped(text, address, |data|) ==>
      Peek(Poke(Poke(text, address, data), at, original), address, |data|) == Splice(data, at - address, original)
  {
  }

  /** The new breakpoint after a write to its block: still last, still live, recorded as when it was set. */
  lemma SetThenWrite(s: State, text: Memory, placed: State, err: Error, entry: BreakEntry, address: Address, data: seq<Byte>)
    returns (wrote: State)
    requires SetDone(s, placed, err, entry) && err == ErrNone && View(s, text) && FreeOf(s, entry.address, entry.mode)
    requires Accepted(address, |data|) && address + |data| < ADDRESS_SPACE && Mapped(text, address, |data|)
    ensures WriteMemory(placed, address, data) == (wrote, ErrNone) && View(wrote, Poke(text, address, data))
    ensures wrote.IsUser(|s.list|) && Find(wrote.list, s.nextId, 0) == |s.list|
    ensures wrote.list[|s.list|] == entry.(instruction := wrote.list[|s.list|].instruction)
    ensures HandleId(entry) in wrote.threads && wrote.plants == placed.plants
  {
    hide View;
    hide WriteMemory;
    SetKeepsView(s, text, placed, err, entry);
    WriteWritesText(placed, text, address, data);
    wrote := WriteMemory(placed, address, data).0;
    ViewInv(s, text);
    ViewInv(wrote, Poke(text, address, data));
    assert wrote.list[|s.list|].breakId == s.nextId;
    FindFrom(wrote.list, |s.list|, 0);
  }

  /** The text is the written one with the bytes put back over it, so that a read of the written block shows the
      data exactly when those bytes are its own. */
  ghost predicate PutBackOver(after: State, text: Memory, address: Address, data: seq<Byte>, at: int, original: seq<Byte>) {
    && address <= at && at + |original| <= address + |data|
    && View(after, Poke(Poke(text, address, data), at, original))
    && (ReadMemory(after, address, |data|) == (ErrNone, data) <==>
          data[at - address..at - address + |original|] == original)
  }

  /** Clearing a live breakpoint inside a written block splices its recorded bytes into what is read. */
  lemma ClearPutsBack(s: State, text: Memory, index: nat, breakId: int, address: Address, data: seq<Byte>)
    returns (cleared: State)
    requires View(s, Poke(text, address, data)) && s.IsUser(index) && Find(s.list, breakId, 0) == index
    requires HandleId(s.list[index]) in s.threads && s.list[index].address in s.plants
    requires Accepted(address, |data|) && address + |data| < ADDRESS_SPACE && Mapped(text, address, |data|)
    requires address <= s.list[index].address
      && s.list[index].address + |s.plants[s.list[index].address].original| <= address + |data|
    ensures (cleared, ErrNone) == ClearBreak(s, breakId, false)
    ensures PutBackOver(cleared, text, address, data, s.list[index].address, s.plants[s.list[index].address].original)
  {
    hide View;
    hide ReadMemory;
    hide ClearDone;
    var at, original := s.list[index].address, s.plants[s.list[index].address].original;
    assert ClearBreak(s, breakId, false).1 == ErrNone;
    var err, found;
    cleared, err, found := ClearShape(s, breakId, false);
    hide ClearBreak;
    hide Find;
    ClearShowsRecorded(s, Poke(text, address, data), cleared, err, found);
    ReadShowsText(cleared, Poke(Poke(text, address, data), at, original), address, |data|);
    PutBackSplices(text, address, data, at, original);
    SpliceShowsIff(data, at - address, original);
  }

  lemma WriteThenClear(s: State, text: Memory, placed: State, entry: BreakEntry, address: Address, data: seq<Byte>)
    returns (wrote: State, cleared: State)
    requires SetDone(s, placed, ErrNone, entry) && View(s, text) && FreeOf(s, entry.address, entry.mode)
    requires Accepted(address, |data|) && address + |data| < ADDRESS_SPACE && Mapped(text, address, |data|)
    requires address <= entry.address < address + |data|
    ensures WriteMemory(placed, address, data) == (wrote, ErrNone) && ClearBreak(wrote, s.nextId, false) == (cleared, ErrNone)
    ensures View(wrote, Poke(text, address, data))
    ensures Mapped(text, entry.address, BreakSize(entry.mode))
    ensures PutBackOver(cleared, text, address, data, entry.address, Peek(text, entry.address, BreakSize(entry.mode)))
  {
    hide View;
    hide WriteMemory;
    hide ReadMemory;
    hide FreeOf;
    hide SetDone;
    hide ClearBreak;
    hide Find;
    hide PutBackOver;
    SetReads(s, placed, ErrNone, entry);
    assert entry.address + BreakSize(entry.mode) <= address + |data| by {
      NoneStraddles(address, |data|, entry.address, entry.mode);
    }
    hide Accepted;
    hide Aligned;
    hide Supported;
    SetRecords(s, text, placed, ErrNone, entry);
    wrote := SetThenWrite(s, text, placed, ErrNone, entry, address, data);
    cleared := ClearPutsBack(wrote, text, |s.list|, s.nextId, address, data);
  }

  /** Set, write, clear: the clear brings back what the text was before the write, so the write is lost
      unless it wrote those bytes itself. */
  lemma SetWriteClearLosesTheWrite(s: State, text: Memory, id: nat, threadSpecific: bool, where: Address, mode: Mode,
                                   address: Address, data: seq<Byte>)
    returns (wrote: State, cleared: State)
    requires View(s, text) && FreeOf(s, where, mode)
    requires SetBreak(s, id, threadSpecific, where, mode).1 == ErrNone
    requires Accepted(address, |data|) && address + |data| < ADDRESS_SPACE && Mapped(text, address, |data|)
    requires address <= where < address + |data|
    ensures WriteMemory(SetBreak(s, id, threadSpecific, where, mode).0, address, data) == (wrote, ErrNone)
    ensures ClearBreak(wrote, s.nextId, false) == (cleared, ErrNone)
    ensures ReadMemory(wrote, address, |data|) == (ErrNone, data)
    ensures Mapped(text, where, BreakSize(mode))
    ensures PutBackOver(cleared, text, address, data, where, Peek(text, where, BreakSize(mode)))
  {
    hide View;
    hide WriteMemory;
    hide ReadMemory;
    hide SetBreak;
    hide FreeOf;
    hide SetDone;
    hide ClearBreak;
    hide BreakSize;
    hide PutBackOver;
    var placed, err, entry := SetShape(s, id, threadSpecific, where, mode);
    wrote, cleared := WriteThenClear(s, text, placed, entry, address, data);
    ReadShowsText(wrote, Poke(text, address, data), address, |data|);
    PokeThenPeek(text, address, data);
  }
}
