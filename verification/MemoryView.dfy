/** Reading and writing target memory through the driver while breakpoints are planted. */
module MemoryView {
  import opened Wrappers
  import opened CodeMemory
  import opened Breakpoints
  import opened BreakpointRuns

  const ACCESS_32 := 4
  const LITTLE_ENDIAN_8 := 0

  /** The security server's check of a memory request. */
  function Validate(address: Address, size: Address, access: nat, endianness: nat, maxSize: nat): Error {
    if size == 0 || size > maxSize then ErrArgument
    else if address > (ADDRESS_SPACE - size) % ADDRESS_SPACE then ErrArgument
    else if access != ACCESS_32 || endianness != LITTLE_ENDIAN_8 then ErrNotSupported
    else if address % access != 0 || size % access != 0 then ErrArgument
    else ErrNone
  }

  /** The check accepts a block that ends exactly at the top of the address space, although its
      documentation refuses a sum above 0xffffffff. */
  lemma ValidateAccepts(address: Address, size: Address, access: nat, endianness: nat, maxSize: nat)
    ensures Validate(address, size, access, endianness, maxSize) == ErrNone <==>
      && 0 < size <= maxSize && address + size <= ADDRESS_SPACE
      && access == ACCESS_32 && endianness == LITTLE_ENDIAN_8
      && address % 4 == 0 && size % 4 == 0
  {
    if size != 0 {
      assert (ADDRESS_SPACE - size) % ADDRESS_SPACE == ADDRESS_SPACE - size;
    }
  }

  /** A block refused only for its access size or byte order is not supported; any other refused one is an argument
      error, where alignment is looked at last. */
  lemma ValidateErrors(address: Address, size: Address, access: nat, endianness: nat, maxSize: nat)
    ensures var err, sized := Validate(address, size, access, endianness, maxSize),
                              0 < size <= maxSize && address + size <= ADDRESS_SPACE;
      && (err == ErrNotSupported <==> sized && (access != 4 || endianness != 0))
      && (err == ErrArgument <==> !sized || (access == 4 && endianness == 0 && (address % 4 != 0 || size % 4 != 0)))
  {
    if size != 0 {
      assert (ADDRESS_SPACE - size) % ADDRESS_SPACE == ADDRESS_SPACE - size;
    }
  }

  /** A block as the server lets it through. */
  ghost predicate Accepted(address: Address, length: nat) {
    address % 4 == 0 && length % 4 == 0 && 0 < length && address + length <= ADDRESS_SPACE
  }

  /** The driver's range test: the end of the block is computed in 32 bits. */
  predicate InBlock(entry: BreakEntry, address: Address, length: nat) {
    entry.address >= address && entry.address < (address + length) % ADDRESS_SPACE
  }

  /** Data with bytes laid over it from an offset on. */
  function Splice(data: seq<Byte>, offset: int, bytes: seq<Byte>): (result: seq<Byte>)
    ensures |result| == |data|
    ensures forall k :: 0 <= k < |data| ==>
      result[k] == if offset <= k < offset + |bytes| then bytes[k - offset] else data[k]
  {
    seq(|data|, k requires 0 <= k < |data| => if offset <= k < offset + |bytes| then bytes[k - offset] else data[k])
  }

  /** Puts the saved instructions of the user breakpoints in the block over the data, from index i on. */
  function Overlay(list: seq<BreakEntry>, address: Address, data: seq<Byte>, i: nat): (Error, seq<Byte>)
    decreases |list| - i
  {
    if i >= |list| then (ErrNone, data)
    else if list[i].breakId >= TEMP_BREAKS && InBlock(list[i], address, |data|) then
      if Supported(list[i].mode) then
        Overlay(list, address, Splice(data, list[i].address - address, list[i].instruction), i + 1)
      else (ErrNotSupported, data)
    else Overlay(list, address, data, i + 1)
  }

  function ReadMemory(s: State, address: Address, length: nat): (Error, seq<Byte>) {
    if !Mapped(s.raw, address, length) then (ErrBadPointer, [])
    else Overlay(s.list, address, Peek(s.raw, address, length), 0)
  }

  /** Saves the written bytes under the user breakpoints in the block and plants these again, from index i on. */
  function Replant(s: State, address: Address, data: seq<Byte>, i: nat): (State, Error)
    decreases |s.list| - i
  {
    if i >= |s.list| then (s, ErrNone)
    else
      var entry := s.list[i];
      if entry.breakId >= TEMP_BREAKS && InBlock(entry, address, |data|) then
        if !Supported(entry.mode) then (s, ErrNotSupported)
        else
          var offset := entry.address - address;
          var saved := if offset + BreakSize(entry.mode) <= |data| then data[offset..offset + BreakSize(entry.mode)]
                       else entry.instruction;
          Replant(s.(list := s.list[i := entry.(instruction := saved)],
                     raw := Poke(s.raw, entry.address, BreakBytes(entry.mode))), address, data, i + 1)
      else Replant(s, address, data, i + 1)
  }

  /** Bytes written where nothing is planted; under a planted breakpoint the base stays as remembered. */
  function PokeFree(base: Memory, plants: Plants, address: int, data: seq<Byte>): (result: Memory)
    ensures result.Keys == base.Keys
    ensures forall x :: x in base ==>
      result[x] == if address <= x < address + |data| && Uncovered(plants, x) then data[x - address] else base[x]
  {
    map x | x in base :: if address <= x < address + |data| && Uncovered(plants, x) then data[x - address] else base[x]
  }

  /** The state once the data has been copied over memory, breakpoints and all. */
  function Overwritten(s: State, address: Address, data: seq<Byte>): State {
    s.(raw := Poke(s.raw, address, data), base := PokeFree(s.base, s.plants, address, data))
  }

  /** A write goes to memory; the breakpoints in the block are saved and planted over it again. The code
      modifier is not told. */
  function WriteMemory(s: State, address: Address, data: seq<Byte>): (State, Error) {
    if !Mapped(s.raw, address, |data|) then (s, ErrBadPointer)
    else Replant(Overwritten(s, address, data), address, data, 0)
  }

  /** Some user breakpoint in the block, its end computed in 32 bits, is of an instruction set the driver does not know. */
  ghost predicate UnknownInBlock(list: seq<BreakEntry>, address: Address, length: nat) {
    exists i :: 0 <= i < |list| && list[i].breakId >= TEMP_BREAKS && !Supported(list[i].mode) &&
      address <= list[i].address < (address + length) % ADDRESS_SPACE
  }

  lemma {:induction false} OverlayErrors(list: seq<BreakEntry>, address: Address, data: seq<Byte>, i: nat)
    requires i <= |list|
    ensures Overlay(list, address, data, i).0 ==
      if UnknownInBlock(list[i..], address, |data|) then ErrNotSupported else ErrNone
    ensures |Overlay(list, address, data, i).1| == |data|
    decreases |list| - i
  {
    if i == |list| {
    } else {
      UnknownStep(list[i..], address, |data|);
      assert list[i..][1..] == list[i + 1..];
      hide UnknownInBlock;
      OverlayErrors(list, address, Splice(data, list[i].address - address, list[i].instruction), i + 1);
      OverlayErrors(list, address, data, i + 1);
    }
  }

  lemma UnknownStep(list: seq<BreakEntry>, address: Address, length: nat)
    requires list != []
    ensures UnknownInBlock(list, address, length) <==>
      (list[0].breakId >= TEMP_BREAKS && InBlock(list[0], address, length) && !Supported(list[0].mode)) ||
      UnknownInBlock(list[1..], address, length)
  {
    if UnknownInBlock(list, address, length) {
      var i :| 0 <= i < |list| && list[i].breakId >= TEMP_BREAKS && !Supported(list[i].mode) &&
        address <= list[i].address < (address + length) % ADDRESS_SPACE;
      assert i > 0 ==> list[1..][i - 1] == list[i];
    }
    if UnknownInBlock(list[1..], address, length) {
      var i :| 0 <= i < |list[1..]| && list[1..][i].breakId >= TEMP_BREAKS && !Supported(list[1..][i].mode) &&
        address <= list[1..][i].address < (address + length) % ADDRESS_SPACE;
      assert list[i + 1] == list[1..][i];
    }
  }

  lemma {:induction false} ReplantErrors(s: State, address: Address, data: seq<Byte>, i: nat)
    requires i <= |s.list|
    ensures Replant(s, address, data, i).1 ==
      if UnknownInBlock(s.list[i..], address, |data|) then ErrNotSupported else ErrNone
    decreases |s.list| - i
  {
    if i == |s.list| {
    } else {
      UnknownStep(s.list[i..], address, |data|);
      assert s.list[i..][1..] == s.list[i + 1..];
      hide UnknownInBlock;
      var entry := s.list[i];
      if entry.breakId >= TEMP_BREAKS && InBlock(entry, address, |data|) {
        if Supported(entry.mode) {
          var offset := entry.address - address;
          var saved := if offset + BreakSize(entry.mode) <= |data| then data[offset..offset + BreakSize(entry.mode)]
                       else entry.instruction;
          var next := s.(list := s.list[i := entry.(instruction := saved)],
                         raw := Poke(s.raw, entry.address, BreakBytes(entry.mode)));
          assert next.list[i + 1..] == s.list[i + 1..];
          ReplantErrors(next, address, data, i + 1);
        }
      } else {
        ReplantErrors(s, address, data, i + 1);
      }
    }
  }

  /** A read or write fails exactly when part of the block is not mapped, and then changes nothing, or when a
      breakpoint in it is of an unknown instruction set. */
  lemma AccessErrors(s: State, address: Address, data: seq<Byte>)
    ensures var err := if !Mapped(s.raw, address, |data|) then ErrBadPointer
                       else if UnknownInBlock(s.list, address, |data|) then ErrNotSupported
                       else ErrNone;
      && ReadMemory(s, address, |data|).0 == err && WriteMemory(s, address, data).1 == err
      && |ReadMemory(s, address, |data|).1| == (if err == ErrBadPointer then 0 else |data|)
      && (err == ErrBadPointer ==> WriteMemory(s, address, data).0 == s)
  {
    if Mapped(s.raw, address, |data|) {
      OverlayErrors(s.list, address, Peek(s.raw, address, |data|), 0);
      ReplantErrors(Overwritten(s, address, data), address, data, 0);
      assert s.list[0..] == s.list;
    }
    hide Overlay;
    hide Replant;
    hide UnknownInBlock;
  }

  // ---------------------------------------------------------------- the view invariant

  ghost predicate Saves(text: Memory, entry: BreakEntry) {
    && |entry.instruction| == BreakSize(entry.mode)
    && (forall x :: Covers(entry.address, entry.mode, x) ==> x in text && text[x] == entry.instruction[x - entry.address])
  }

  ghost predicate UsersApart(s: State) {
    forall i, j :: TEMP_BREAKS <= i < j < |s.list| ==>
      !Intersect(s.list[i].address, s.list[i].mode, s.list[j].address, s.list[j].mode)
  }

  ghost predicate AllSave(s: State, text: Memory) {
    forall i :: s.IsUser(i) ==> Saves(text, s.list[i])
  }

  /** The text is what memory holds where nothing is planted. */
  ghost predicate FreeText(s: State, text: Memory) {
    && text.Keys == s.base.Keys
    && (forall x :: x in text && Uncovered(s.plants, x) ==> text[x] == s.base[x])
  }

  /** The text is memory where nothing is planted, and what the breakpoints save where they stand; their
      ranges are disjoint. */
  ghost predicate View(s: State, text: Memory) {
    && Inv(s)
    && UsersApart(s)
    && AllSave(s, text)
    && FreeText(s, text)
  }

  /** The bytes saved are not those the code modifier remembers: the location was written since it was planted. */
  predicate Rewritten(s: State, entry: BreakEntry) {
    entry.address in s.plants && entry.instruction != s.plants[entry.address].original
  }

  lemma FreshView(program: Memory, threads: Threads)
    ensures View(Fresh(program, threads), program)
  {
    FreshInv(program, threads);
  }

  lemma WordsDoNotCut(edge: int, word: int, half: int)
    ensures 4 * word < 4 * edge ==> 4 * word + 4 <= 4 * edge
    ensures 2 * half < 4 * edge ==> 2 * half + 2 <= 4 * edge
  {
  }

  /** An aligned block cuts no aligned breakpoint in two. */
  lemma NoneStraddles(address: Address, length: nat, a: Address, m: Mode)
    requires Accepted(address, length) && Aligned(a, m) && Supported(m)
    ensures (a < address ==> a + BreakSize(m) <= address)
    ensures (a < address + length ==> a + BreakSize(m) <= address + length)
  {
    var edge, words := address / 4, length / 4;
    assert address == 4 * edge && length == 4 * words;
    assert address + length == 4 * (edge + words);
    WordsDoNotCut(edge, a / 4, a / 2);
    WordsDoNotCut(edge + words, a / 4, a / 2);
    assert m == Arm ==> a == 4 * (a / 4);
    assert m == Thumb ==> a == 2 * (a / 2);
  }

  lemma InBlockBelowTop(entry: BreakEntry, address: Address, length: nat)
    ensures address + length < ADDRESS_SPACE ==>
      (InBlock(entry, address, length) <==> address <= entry.address < address + length)
  {
    if address + length < ADDRESS_SPACE {
      assert (address + length) % ADDRESS_SPACE == address + length;
    }
  }

  lemma UserIffHighId(s: State, i: nat)
    ensures Ordered(s) && i < |s.list| ==> (s.IsUser(i) <==> s.list[i].breakId >= TEMP_BREAKS)
  {
    if Ordered(s) && i < |s.list| {
      assert s.list[TEMP_BREAKS - 1].breakId == TEMP_BREAKS - 1;
    }
  }

  /** What the overlay has put right after i entries. */
  ghost predicate Overlaid(s: State, text: Memory, address: Address, data: seq<Byte>, i: nat) {
    && Mapped(text, address, |data|)
    && (forall x :: address <= x < address + |data| && Uncovered(s.plants, x) ==> data[x - address] == text[x])
    && (forall j, x :: (TEMP_BREAKS <= j < i && j < |s.list| && address <= x < address + |data|
                        && Covers(s.list[j].address, s.list[j].mode, x))
          ==> data[x - address] == text[x])
  }

  lemma SpliceAt(text: Memory, entry: BreakEntry, address: Address, data: seq<Byte>, x: int)
    requires Saves(text, entry)
    requires address <= x < address + |data|
    ensures Splice(data, entry.address - address, entry.instruction)[x - address] ==
      if Covers(entry.address, entry.mode, x) then text[x] else data[x - address]
  {
  }

  lemma SpliceKeepsOverlaid(s: State, text: Memory, address: Address, data: seq<Byte>, i: nat)
    requires s.IsUser(i) && Saves(text, s.list[i])
    requires Overlaid(s, text, address, data, i)
    ensures Overlaid(s, text, address, Splice(data, s.list[i].address - address, s.list[i].instruction), i + 1)
  {
    var entry := s.list[i];
    var next := Splice(data, entry.address - address, entry.instruction);
    forall x | address <= x < address + |next| && Uncovered(s.plants, x) ensures next[x - address] == text[x] {
      SpliceAt(text, entry, address, data, x);
    }
    forall j, x | TEMP_BREAKS <= j < i + 1 && j < |s.list| && address <= x < address + |next|
      && Covers(s.list[j].address, s.list[j].mode, x)
      ensures next[x - address] == text[x]
    {
      SpliceAt(text, entry, address, data, x);
    }
  }

  lemma OverlayOne(s: State, text: Memory, address: Address, data: seq<Byte>, i: nat) returns (next: seq<Byte>)
    requires View(s, text) && Accepted(address, |data|) && address + |data| < ADDRESS_SPACE
    requires i < |s.list| && Overlaid(s, text, address, data, i)
    ensures next == if s.list[i].breakId >= TEMP_BREAKS && InBlock(s.list[i], address, |data|)
      then Splice(data, s.list[i].address - address, s.list[i].instruction) else data
    ensures |next| == |data| && Overlaid(s, text, address, next, i + 1)
    ensures s.list[i].breakId >= TEMP_BREAKS ==> Supported(s.list[i].mode)
  {
    hide Patched;
    var entry := s.list[i];
    InBlockBelowTop(entry, address, |data|);
    UserIffHighId(s, i);
    if s.IsUser(i) {
      assert UserOk(s, entry) && Saves(text, entry);
    }
    if s.IsUser(i) && InBlock(entry, address, |data|) {
      SpliceKeepsOverlaid(s, text, address, data, i);
      next := Splice(data, entry.address - address, entry.instruction);
    } else {
      if s.IsUser(i) {
        NoneStraddles(address, |data|, entry.address, entry.mode);
      }
      assert Overlaid(s, text, address, data, i + 1);
      next := data;
    }
  }

  lemma OverlaidIsText(s: State, text: Memory, address: Address, data: seq<Byte>)
    ensures Counted(s) && Overlaid(s, text, address, data, |s.list|) ==> data == Peek(text, address, |data|)
  {
    if Counted(s) && Overlaid(s, text, address, data, |s.list|) {
      forall k | 0 <= k < |data| ensures data[k] == Peek(text, address, |data|)[k] {
        var x := address + k;
        if !Uncovered(s.plants, x) {
          var p :| p in s.plants && Covers(p, s.plants[p].mode, x);
          var j :| s.IsUser(j) && s.list[j].address == p;
          assert Covers(s.list[j].address, s.list[j].mode, x);
        }
      }
    }
  }

  lemma {:induction false} OverlayRestores(s: State, text: Memory, address: Address, data: seq<Byte>, i: nat)
    requires View(s, text) && Accepted(address, |data|) && address + |data| < ADDRESS_SPACE
    requires i <= |s.list| && Overlaid(s, text, address, data, i)
    ensures Overlay(s.list, address, data, i) == (ErrNone, Peek(text, address, |data|))
    decreases |s.list| - i
  {
    hide View;
    hide Overlaid;
    hide InBlock;
    hide Supported;
    if i == |s.list| {
      ViewCounted(s, text);
      OverlaidIsText(s, text, address, data);
    } else {
      var next := OverlayOne(s, text, address, data, i);
      OverlayRestores(s, text, address, next, i + 1);
    }
  }

  lemma ViewCounted(s: State, text: Memory)
    ensures View(s, text) ==> Counted(s)
  {
  }

  lemma ReadStarts(s: State, text: Memory, address: Address, length: nat)
    ensures View(s, text) && Mapped(text, address, length) ==>
      Mapped(s.raw, address, length) && Overlaid(s, text, address, Peek(s.raw, address, length), 0)
  {
    hide Inv;
    if View(s, text) && Mapped(text, address, length) {
      InvPatched(s);
    }
  }

  /** A read through the driver shows the text, not the planted breakpoints. */
  lemma ReadShowsText(s: State, text: Memory, address: Address, length: nat)
    requires View(s, text) && Accepted(address, length) && address + length < ADDRESS_SPACE
    requires Mapped(text, address, length)
    ensures ReadMemory(s, address, length) == (ErrNone, Peek(text, address, length))
  {
    hide View;
    hide Overlaid;
    ReadStarts(s, text, address, length);
    OverlayRestores(s, text, address, Peek(s.raw, address, length), 0);
  }

  lemma {:induction false} OverlayAtTop(list: seq<BreakEntry>, address: Address, data: seq<Byte>, i: nat)
    ensures address + |data| == ADDRESS_SPACE ==> Overlay(list, address, data, i) == (ErrNone, data)
    decreases |list| - i
  {
    if address + |data| == ADDRESS_SPACE {
      assert (address + |data|) % ADDRESS_SPACE == 0;
      if i >= |list| {
      } else {
        OverlayAtTop(list, address, data, i + 1);
      }
    }
  }

  /** Whether a read can tell the breakpoint apart from the text it stands on. */
  predicate Invisible(entry: BreakEntry) {
    entry.instruction == BreakBytes(entry.mode)
  }

  /** Memory holds the entry's break instruction. */
  ghost predicate Shows(raw: Memory, entry: BreakEntry) {
    forall x :: Covers(entry.address, entry.mode, x) ==> x in raw && raw[x] == BreakBytes(entry.mode)[x - entry.address]
  }

  /** The entry is planted and saves the text under it. */
  ghost predicate Seated(s: State, text: Memory, entry: BreakEntry) {
    Saves(text, entry) && Shows(s.raw, entry)
  }

  lemma ViewIsSeated(s: State, text: Memory, i: nat)
    requires View(s, text) && s.IsUser(i)
    ensures Seated(s, text, s.list[i]) && UserOk(s, s.list[i])
    ensures s.list[i].address in s.plants && s.plants[s.list[i].address].mode == s.list[i].mode
  {
    assert UserOk(s, s.list[i]) && Saves(text, s.list[i]);
    InvPatched(s);
    assert s.plants[s.list[i].address].mode == s.list[i].mode;
    forall x | Covers(s.list[i].address, s.list[i].mode, x)
      ensures x in s.raw && s.raw[x] == BreakBytes(s.list[i].mode)[x - s.list[i].address]
    {
      assert Covers(s.list[i].address, s.plants[s.list[i].address].mode, x);
    }
  }

  lemma SameBytesAsSaved(raw: Memory, text: Memory, entry: BreakEntry)
    ensures Saves(text, entry) && Shows(raw, entry) ==>
      (Invisible(entry) <==> forall x :: Covers(entry.address, entry.mode, x) ==> raw[x] == text[x])
  {
    if Saves(text, entry) && Shows(raw, entry) {
      if forall x :: Covers(entry.address, entry.mode, x) ==> raw[x] == text[x] {
        forall k | 0 <= k < BreakSize(entry.mode) ensures entry.instruction[k] == BreakBytes(entry.mode)[k] {
          assert Covers(entry.address, entry.mode, entry.address + k);
        }
      }
    }
  }

  lemma InvisibleIffSameBytes(s: State, text: Memory, i: nat)
    ensures View(s, text) && s.IsUser(i) ==>
      forall x :: Covers(s.list[i].address, s.list[i].mode, x) ==> x in s.raw && x in text
    ensures View(s, text) && s.IsUser(i) ==>
      (Invisible(s.list[i]) <==> forall x :: Covers(s.list[i].address, s.list[i].mode, x) ==> s.raw[x] == text[x])
  {
    hide View;
    if View(s, text) && s.IsUser(i) {
      ViewIsSeated(s, text, i);
      SameBytesAsSaved(s.raw, text, s.list[i]);
    }
  }

  lemma SameBytesInvisible(s: State, text: Memory, address: Address, length: nat, i: nat)
    requires View(s, text) && Accepted(address, length) && address + length == ADDRESS_SPACE
    requires Mapped(s.raw, address, length) && Mapped(text, address, length)
    requires Peek(s.raw, address, length) == Peek(text, address, length)
    requires s.IsUser(i) && s.list[i].address >= address
    ensures Invisible(s.list[i])
  {
    var e := s.list[i];
    assert UserOk(s, e);
    InvisibleIffSameBytes(s, text, i);
    hide View;
    NoneStraddles(address, length, e.address, e.mode);
    forall x | Covers(e.address, e.mode, x) ensures s.raw[x] == text[x] {
      assert Peek(s.raw, address, length)[x - address] == Peek(text, address, length)[x - address];
    }
  }

  lemma InvisibleSameByte(s: State, text: Memory, address: Address, length: nat, x: int)
    requires View(s, text) && Accepted(address, length) && address + length == ADDRESS_SPACE
    requires forall i :: s.IsUser(i) && s.list[i].address >= address ==> Invisible(s.list[i])
    requires address <= x < address + length && x in text
    ensures x in s.raw && s.raw[x] == text[x]
  {
    InvPatched(s);
    if !Uncovered(s.plants, x) {
      var p :| p in s.plants && Covers(p, s.plants[p].mode, x);
      var j :| s.IsUser(j) && s.list[j].address == p;
      assert UserOk(s, s.list[j]);
      NoneStraddles(address, length, p, s.list[j].mode);
      InvisibleIffSameBytes(s, text, j);
      assert Covers(s.list[j].address, s.list[j].mode, x);
    }
  }

  lemma InvisibleSameBytes(s: State, text: Memory, address: Address, length: nat)
    requires View(s, text) && Accepted(address, length) && address + length == ADDRESS_SPACE
    requires Mapped(s.raw, address, length) && Mapped(text, address, length)
    requires forall i :: s.IsUser(i) && s.list[i].address >= address ==> Invisible(s.list[i])
    ensures Peek(s.raw, address, length) == Peek(text, address, length)
  {
    hide View;
    forall k | 0 <= k < length ensures Peek(s.raw, address, length)[k] == Peek(text, address, length)[k] {
      InvisibleSameByte(s, text, address, length, address + k);
    }
  }

  /** An accepted block ending at the top of the address space is where the view leaks: the wrapped end
      matches no breakpoint, so the read shows memory as it stands. It shows the text exactly when every
      breakpoint in the block stands on its own instruction's bytes. */
  lemma ReadAtTopShowsRaw(s: State, text: Memory, address: Address, length: nat)
    requires View(s, text) && Accepted(address, length) && address + length == ADDRESS_SPACE
    requires Mapped(s.raw, address, length) && Mapped(text, address, length)
    ensures ReadMemory(s, address, length) == (ErrNone, Peek(s.raw, address, length))
    ensures ReadMemory(s, address, length).1 == Peek(text, address, length) <==>
      forall i :: s.IsUser(i) && s.list[i].address >= address ==> Invisible(s.list[i])
  {
    OverlayAtTop(s.list, address, Peek(s.raw, address, length), 0);
    hide View;
    hide Invisible;
    hide Overlay;
    if Peek(s.raw, address, length) == Peek(text, address, length) {
      forall i | s.IsUser(i) && s.list[i].address >= address ensures Invisible(s.list[i]) {
        SameBytesInvisible(s, text, address, length, i);
      }
    }
    if forall i :: s.IsUser(i) && s.list[i].address >= address ==> Invisible(s.list[i]) {
      InvisibleSameBytes(s, text, address, length);
    }
  }

  // ---------------------------------------------------------------- writes

  /** Where nothing is planted, memory, base and text agree; elsewhere the base is as it was. */
  ghost predicate FreeAgree(start: State, s: State, text: Memory) {
    && s.raw.Keys == s.base.Keys == start.base.Keys == text.Keys
    && (forall x :: x in s.base ==>
          if Uncovered(s.plants, x) then s.raw[x] == s.base[x] == text[x] else s.base[x] == start.base[x])
  }

  lemma ShownByte(raw: Memory, entry: BreakEntry, p: int, mode: Mode, x: int)
    requires Shows(raw, entry) && entry.address == p && entry.mode == mode && Covers(p, mode, x)
    ensures x in raw && raw[x] == BreakBytes(mode)[x - p]
  {
  }

  lemma PlantShows(s: State, p: int, x: int)
    requires Counted(s) && p in s.plants && Covers(p, s.plants[p].mode, x)
    requires forall i :: s.IsUser(i) ==> Shows(s.raw, s.list[i])
    ensures x in s.raw && s.raw[x] == BreakBytes(s.plants[p].mode)[x - p]
  {
    hide Shows;
    hide Covers;
    var i :| s.IsUser(i) && s.list[i].address == p;
    ShownByte(s.raw, s.list[i], p, s.plants[p].mode, x);
  }

  lemma FreeBytes(start: State, s: State, text: Memory)
    ensures FreeAgree(start, s, text) ==> s.raw.Keys == s.base.Keys == start.base.Keys
    ensures FreeAgree(start, s, text) ==> forall x :: x in s.base && Uncovered(s.plants, x) ==> s.raw[x] == s.base[x]
  {
  }

  /** Breakpoints that show and are counted, with nothing else changed, are exactly what is patched. */
  lemma ShownIsPatched(start: State, s: State, text: Memory)
    requires Apart(start.base, start.plants) && Recorded(start.base, start.plants) && Counted(s)
    requires s.plants == start.plants && FreeAgree(start, s, text)
    requires forall i :: s.IsUser(i) ==> Shows(s.raw, s.list[i])
    ensures Patched(s.raw, s.base, s.plants)
  {
    hide Apart;
    hide Recorded;
    hide Patched;
    hide FreeAgree;
    hide Shows;
    hide Counted;
    FreeBytes(start, s, text);
    WritingKeepsRecord(start, s, text);
    forall p, x | p in s.plants && Covers(p, s.plants[p].mode, x)
      ensures x in s.raw && s.raw[x] == BreakBytes(s.plants[p].mode)[x - p]
    {
      PlantShows(s, p, x);
    }
    PatchedIs(s);
  }

  lemma PatchedIs(s: State)
    requires s.raw.Keys == s.base.Keys && Apart(s.base, s.plants) && Recorded(s.base, s.plants)
    requires forall p, x :: p in s.plants && Covers(p, s.plants[p].mode, x) ==>
      x in s.raw && s.raw[x] == BreakBytes(s.plants[p].mode)[x - p]
    requires forall x :: x in s.base && Uncovered(s.plants, x) ==> s.raw[x] == s.base[x]
    ensures Patched(s.raw, s.base, s.plants)
  {
    hide Apart;
    hide Recorded;
  }

  /** The state in the middle of a write to a block, after i entries. */
  ghost predicate Writing(start: State, s: State, text: Memory, address: Address, length: nat, i: nat) {
    && s == start.(list := s.list, raw := s.raw, base := s.base)
    && |s.list| == |start.list|
    && (forall j :: 0 <= j < |s.list| ==> s.list[j] == start.list[j].(instruction := s.list[j].instruction))
    && (forall j :: s.IsUser(j) && (j < i || !(address <= s.list[j].address < address + length)) ==>
          Seated(s, text, s.list[j]))
    && FreeAgree(start, s, text)
  }

  lemma PokeElsewhere(before: State, after: State, text: Memory, now: Memory, entry: BreakEntry, address: int, length: nat)
    requires Seated(before, text, entry)
    requires after.raw.Keys == before.raw.Keys && now.Keys == text.Keys
    requires forall x :: x in before.raw && !(address <= x < address + length) ==> after.raw[x] == before.raw[x]
    requires forall x :: x in text && !(address <= x < address + length) ==> now[x] == text[x]
    requires entry.address + BreakSize(entry.mode) <= address || address + length <= entry.address
    ensures Seated(after, now, entry)
  {
  }

  lemma OverwrittenAgrees(s: State, text: Memory, address: Address, data: seq<Byte>)
    ensures View(s, text) ==> FreeAgree(s, Overwritten(s, address, data), Poke(text, address, data))
  {
    hide Inv;
    if View(s, text) {
      InvPatched(s);
    }
  }

  lemma WriteStarts(s: State, text: Memory, address: Address, data: seq<Byte>)
    ensures View(s, text) && Accepted(address, |data|) ==>
      Writing(s, Overwritten(s, address, data), Poke(text, address, data), address, |data|, 0)
  {
    if View(s, text) && Accepted(address, |data|) {
      var next, now := Overwritten(s, address, data), Poke(text, address, data);
      OverwrittenAgrees(s, text, address, data);
      hide FreeAgree;
      forall j | s.IsUser(j) && !(address <= s.list[j].address < address + |data|) ensures Seated(next, now, s.list[j]) {
        ViewIsSeated(s, text, j);
        NoneStraddles(address, |data|, s.list[j].address, s.list[j].mode);
        PokeElsewhere(s, next, text, now, s.list[j], address, |data|);
      }
    }
  }

  /** The memory holds the given bytes from an address on. */
  ghost predicate Holds(memory: Memory, address: int, data: seq<Byte>) {
    forall x :: x in memory && address <= x < address + |data| ==> memory[x] == data[x - address]
  }

  /** Plants an entry again over freshly written data, saving the data under it. */
  function Reseated(s: State, i: nat, address: Address, data: seq<Byte>): State
    requires i < |s.list|
    requires 0 <= s.list[i].address - address && s.list[i].address - address + BreakSize(s.list[i].mode) <= |data|
  {
    var offset := s.list[i].address - address;
    s.(list := s.list[i := s.list[i].(instruction := data[offset..offset + BreakSize(s.list[i].mode)])],
       raw := Poke(s.raw, s.list[i].address, BreakBytes(s.list[i].mode)))
  }

  lemma ReseatedIsSeated(s: State, text: Memory, i: nat, address: Address, data: seq<Byte>)
    requires i < |s.list| && s.raw.Keys == text.Keys
    requires 0 <= s.list[i].address - address && s.list[i].address - address + BreakSize(s.list[i].mode) <= |data|
    requires Mapped(text, s.list[i].address, BreakSize(s.list[i].mode))
    requires Holds(text, address, data)
    ensures Seated(Reseated(s, i, address, data), text, Reseated(s, i, address, data).list[i])
  {
  }

  lemma ReseatKeepsFree(start: State, s: State, text: Memory, address: int, mode: Mode)
    requires FreeAgree(start, s, text) && s.raw.Keys == s.base.Keys
    requires address in s.plants && s.plants[address].mode == mode
    ensures FreeAgree(start, s.(raw := Poke(s.raw, address, BreakBytes(mode))), text)
  {
    forall x | x in s.base && Uncovered(s.plants, x) ensures !(address <= x < address + BreakSize(mode)) {
      assert !Covers(address, s.plants[address].mode, x);
    }
  }

  lemma OthersStaySeated(start: State, was: Memory, s: State, text: Memory, address: Address, data: seq<Byte>, i: nat, j: nat)
    requires View(start, was) && Writing(start, s, text, address, |data|, i) && s.IsUser(i) && s.IsUser(j) && i != j
    requires 0 <= s.list[i].address - address && s.list[i].address - address + BreakSize(s.list[i].mode) <= |data|
    requires Seated(s, text, s.list[j])
    ensures Seated(Reseated(s, i, address, data), text, s.list[j])
  {
    OthersApart(start, was, i, j);
    hide View;
    hide FreeAgree;
    hide Seated;
    PokeElsewhere(s, Reseated(s, i, address, data), text, text, s.list[j], s.list[i].address, BreakSize(s.list[i].mode));
  }

  lemma ReseatOne(start: State, was: Memory, s: State, text: Memory, address: Address, data: seq<Byte>, i: nat)
    requires View(start, was) && Accepted(address, |data|) && Writing(start, s, text, address, |data|, i)
    requires s.IsUser(i) && address <= s.list[i].address < address + |data|
    requires Holds(text, address, data)
    ensures s.list[i].address - address + BreakSize(s.list[i].mode) <= |data|
    ensures Writing(start, Reseated(s, i, address, data), text, address, |data|, i + 1)
  {
    hide Holds;
    hide View;
    hide Seated;
    hide Poke;
    var entry := s.list[i];
    ViewIsSeated(start, was, i);
    NoneStraddles(address, |data|, entry.address, entry.mode);
    var next := Reseated(s, i, address, data);
    FreeKeys(start, s, text);
    hide FreeAgree;
    ReseatedIsSeated(s, text, i, address, data);
    ReseatKeepsFree(start, s, text, entry.address, entry.mode);
    forall j | next.IsUser(j) && j != i && (j < i || !(address <= next.list[j].address < address + |data|))
      ensures Seated(next, text, next.list[j])
    {
      OthersStaySeated(start, was, s, text, address, data, i, j);
    }
    FreeIgnoresList(start, s.(raw := next.raw), next, text);
  }

  lemma FreeIgnoresList(start: State, s: State, next: State, text: Memory)
    ensures FreeAgree(start, s, text) && next == s.(list := next.list) ==> FreeAgree(start, next, text)
  {
  }

  lemma SkipOne(start: State, s: State, text: Memory, address: Address, length: nat, i: nat)
    requires Writing(start, s, text, address, length, i)
    requires !(s.IsUser(i) && address <= s.list[i].address < address + length)
    ensures Writing(start, s, text, address, length, i + 1)
  {
    hide FreeAgree;
    hide Seated;
  }

  lemma OthersApart(s: State, text: Memory, i: nat, j: nat)
    requires View(s, text) && s.IsUser(i) && s.IsUser(j) && i != j
    ensures !Intersect(s.list[i].address, s.list[i].mode, s.list[j].address, s.list[j].mode)
  {
    hide Inv;
    hide AllSave;
    if j < i {
      assert !Intersect(s.list[j].address, s.list[j].mode, s.list[i].address, s.list[i].mode);
    }
  }

  lemma {:induction false} ReplantSeatsAll(start: State, was: Memory, s: State, text: Memory, address: Address, data: seq<Byte>, i: nat)
    requires View(start, was) && Accepted(address, |data|) && address + |data| < ADDRESS_SPACE
    requires Writing(start, s, text, address, |data|, i) && i <= |s.list|
    requires Holds(text, address, data)
    ensures var (after, err) := Replant(s, address, data, i);
      err == ErrNone && Writing(start, after, text, address, |data|, |s.list|)
    decreases |s.list| - i
  {
    hide View;
    hide Writing;
    hide Holds;
    if i == |s.list| {
    } else {
      ReplantStep(start, was, s, text, address, data, i);
      if s.IsUser(i) && address <= s.list[i].address < address + |data| {
        ReseatOne(start, was, s, text, address, data, i);
        ReplantSeatsAll(start, was, Reseated(s, i, address, data), text, address, data, i + 1);
      } else {
        SkipOne(start, s, text, address, |data|, i);
        ReplantSeatsAll(start, was, s, text, address, data, i + 1);
      }
    }
  }

  /** One round of the re-planting loop. */
  lemma ReplantStep(start: State, was: Memory, s: State, text: Memory, address: Address, data: seq<Byte>, i: nat)
    requires View(start, was) && Accepted(address, |data|) && address + |data| < ADDRESS_SPACE
    requires Writing(start, s, text, address, |data|, i) && i < |s.list|
    ensures s.IsUser(i) && address <= s.list[i].address < address + |data| ==>
      && s.list[i].address - address + BreakSize(s.list[i].mode) <= |data|
      && Replant(s, address, data, i) == Replant(Reseated(s, i, address, data), address, data, i + 1)
    ensures !(s.IsUser(i) && address <= s.list[i].address < address + |data|) ==>
      Replant(s, address, data, i) == Replant(s, address, data, i + 1)
  {
    hide Patched;
    hide FreeAgree;
    hide Seated;
    InBlockBelowTop(s.list[i], address, |data|);
    UserIffHighId(start, i);
    if s.IsUser(i) && address <= s.list[i].address < address + |data| {
      assert UserOk(start, start.list[i]);
      NoneStraddles(address, |data|, s.list[i].address, s.list[i].mode);
    }
  }

  /** What is remembered of the planted locations is still in the base. */
  lemma WritingKeepsRecord(start: State, s: State, text: Memory)
    requires Apart(start.base, start.plants) && Recorded(start.base, start.plants)
    requires s.plants == start.plants && s.base.Keys == start.base.Keys && FreeAgree(start, s, text)
    ensures Apart(s.base, s.plants) && Recorded(s.base, s.plants)
  {
    forall p | p in s.plants ensures Mapped(s.base, p, BreakSize(s.plants[p].mode)) {
      assert Mapped(start.base, p, BreakSize(start.plants[p].mode));
    }
    forall p | p in s.plants ensures s.plants[p].original == Peek(s.base, p, BreakSize(s.plants[p].mode)) {
      forall k | 0 <= k < BreakSize(s.plants[p].mode)
        ensures Peek(s.base, p, BreakSize(s.plants[p].mode))[k] == Peek(start.base, p, BreakSize(s.plants[p].mode))[k]
      {
        assert Covers(p, s.plants[p].mode, p + k) && !Uncovered(s.plants, p + k);
      }
    }
  }

  lemma WritingEndsPatched(start: State, s: State, text: Memory, address: Address, length: nat)
    requires Apart(start.base, start.plants) && Recorded(start.base, start.plants)
    requires Counted(s) && Writing(start, s, text, address, length, |s.list|)
    ensures Patched(s.raw, s.base, s.plants)
  {
    hide Apart;
    hide Recorded;
    hide FreeAgree;
    hide Counted;
    hide Saves;
    hide Shows;
    ShownIsPatched(start, s, text);
  }

  lemma FreeKeys(start: State, s: State, text: Memory)
    ensures FreeAgree(start, s, text) ==> s.raw.Keys == s.base.Keys == start.base.Keys == text.Keys
  {
  }

  lemma WritingEndsOk(start: State, was: Memory, s: State, text: Memory, address: Address, length: nat)
    ensures View(start, was) && Writing(start, s, text, address, length, |s.list|) ==> ListOk(s) && AllSave(s, text)
  {
    if View(start, was) && Writing(start, s, text, address, length, |s.list|) {
      FreeKeys(start, s, text);
      hide Patched;
      hide FreeAgree;
      hide Shows;
      forall i | s.IsUser(i) ensures UserOk(s, s.list[i]) && Saves(text, s.list[i]) {
        assert UserOk(start, start.list[i]);
        assert Seated(s, text, s.list[i]);
      }
    }
  }

  lemma WritingEndsPlaces(start: State, s: State, text: Memory, address: Address, length: nat)
    requires Counted(start) && EqualOrDisjoint(start) && UsersApart(start)
    requires Writing(start, s, text, address, length, |s.list|)
    ensures Counted(s) && EqualOrDisjoint(s) && UsersApart(s)
  {
    hide FreeAgree;
    hide Seated;
    forall a | a in s.plants ensures UserAt(s, a) {
      var i :| start.IsUser(i) && start.list[i].address == a;
      assert s.IsUser(i) && s.list[i].address == a;
    }
    forall i, j | TEMP_BREAKS <= i < |s.list| && TEMP_BREAKS <= j < |s.list|
      ensures SamePlace(s.list[i], s.list[j].address, s.list[j].mode)
    {
      assert SamePlace(start.list[i], start.list[j].address, start.list[j].mode);
    }
  }

  lemma WritingEndsInView(start: State, was: Memory, s: State, text: Memory, address: Address, length: nat)
    requires View(start, was) && Writing(start, s, text, address, length, |s.list|)
    ensures View(s, text)
  {
    InvPatched(start);
    WritingEndsOk(start, was, s, text, address, length);
    WritingEndsPlaces(start, s, text, address, length);
    WritingEndsPatched(start, s, text, address, length);
    hide Patched;
    hide ListOk;
    hide Counted;
    hide EqualOrDisjoint;
    hide UsersApart;
    hide AllSave;
  }

  /** A write through the driver writes the text, and keeps every breakpoint planted and saved. What the code
      modifier remembers does not change. */
  lemma WriteWritesText(s: State, text: Memory, address: Address, data: seq<Byte>)
    requires View(s, text) && Accepted(address, |data|) && address + |data| < ADDRESS_SPACE
    requires Mapped(text, address, |data|)
    ensures var (after, err) := WriteMemory(s, address, data);
      && err == ErrNone && View(after, Poke(text, address, data))
      && after.plants == s.plants && |after.list| == |s.list| && after.threads == s.threads
      && (forall i :: 0 <= i < |s.list| ==> after.list[i] == s.list[i].(instruction := after.list[i].instruction))
  {
    hide View;
    hide FreeAgree;
    hide Seated;
    hide Replant;
    hide Poke;
    hide Overlaid;
    var next := Overwritten(s, address, data);
    WriteStarts(s, text, address, data);
    assert Holds(Poke(text, address, data), address, data);
    ReplantSeatsAll(s, text, next, Poke(text, address, data), address, data, 0);
    WritingEndsInView(s, text, Replant(next, address, data, 0).0, Poke(text, address, data), address, |data|);
    ReadStarts(s, text, address, |data|);
  }

  lemma {:induction false} ReplantAtTop(s: State, address: Address, data: seq<Byte>, i: nat)
    ensures address + |data| == ADDRESS_SPACE ==> Replant(s, address, data, i) == (s, ErrNone)
    decreases |s.list| - i
  {
    if address + |data| == ADDRESS_SPACE {
      assert (address + |data|) % ADDRESS_SPACE == 0;
      if i >= |s.list| {
      } else {
        ReplantAtTop(s, address, data, i + 1);
      }
    }
  }

  /** The data holds the break instruction where the breakpoint stands. */
  ghost predicate WritesBreak(entry: BreakEntry, address: int, data: seq<Byte>) {
    forall x :: Covers(entry.address, entry.mode, x) && address <= x < address + |data| ==>
      data[x - address] == BreakBytes(entry.mode)[x - entry.address]
  }

  /** A write to a block ending at the top of the address space copies the data over the breakpoints in it and
      leaves them so: their saved instructions do not change, and they stay planted exactly where the data
      holds their break instructions itself. */
  lemma WriteAtTopUnplants(s: State, text: Memory, address: Address, data: seq<Byte>)
    requires View(s, text) && Accepted(address, |data|) && address + |data| == ADDRESS_SPACE
    requires Mapped(text, address, |data|)
    ensures WriteMemory(s, address, data) == (Overwritten(s, address, data), ErrNone)
    ensures Patched(Overwritten(s, address, data).raw, Overwritten(s, address, data).base, s.plants) <==>
      forall i :: s.IsUser(i) && s.list[i].address >= address ==> WritesBreak(s.list[i], address, data)
    ensures View(Overwritten(s, address, data), Poke(text, address, data)) <==>
      forall i :: s.IsUser(i) && s.list[i].address >= address ==>
        WritesBreak(s.list[i], address, data) && Invisible(s.list[i])
  {
    ReadStarts(s, text, address, |data|);
    ReplantAtTop(Overwritten(s, address, data), address, data, 0);
    hide View;
    hide Overlaid;
    hide Patched;
    hide Replant;
    hide WritesBreak;
    hide Invisible;
    hide Overwritten;
    if forall i :: s.IsUser(i) && s.list[i].address >= address ==> WritesBreak(s.list[i], address, data) {
      TopStaysPatched(s, text, address, data);
    }
    if Patched(Overwritten(s, address, data).raw, Overwritten(s, address, data).base, s.plants) {
      forall i | s.IsUser(i) && s.list[i].address >= address ensures WritesBreak(s.list[i], address, data) {
        TopWritesBreak(s, text, address, data, i);
      }
    }
    TopKeepsViewIff(s, text, address, data);
  }

  lemma PatchedShows(s: State, entry: BreakEntry)
    requires Patched(s.raw, s.base, s.plants)
    requires entry.address in s.plants && s.plants[entry.address].mode == entry.mode
    ensures Shows(s.raw, entry)
  {
    hide Recorded;
    forall x | Covers(entry.address, entry.mode, x)
      ensures x in s.raw && s.raw[x] == BreakBytes(entry.mode)[x - entry.address]
    {
      assert Covers(entry.address, s.plants[entry.address].mode, x);
    }
  }

  lemma TopWritesBreak(s: State, text: Memory, address: Address, data: seq<Byte>, i: nat)
    requires View(s, text) && Accepted(address, |data|) && Mapped(text, address, |data|)
    requires Patched(Overwritten(s, address, data).raw, Overwritten(s, address, data).base, s.plants)
    requires s.IsUser(i)
    ensures WritesBreak(s.list[i], address, data)
  {
    hide View;
    hide Patched;
    hide Overlaid;
    hide Seated;
    ViewIsSeated(s, text, i);
    ReadStarts(s, text, address, |data|);
    PatchedShows(Overwritten(s, address, data), s.list[i]);
    assert WritesBreak(s.list[i], address, data);
  }

  lemma WrittenIsShown(raw: Memory, entry: BreakEntry, address: int, data: seq<Byte>)
    ensures Shows(raw, entry) && WritesBreak(entry, address, data) ==> Shows(Poke(raw, address, data), entry)
  {
  }

  lemma TopShows(s: State, text: Memory, address: Address, data: seq<Byte>, i: nat)
    requires View(s, text) && Accepted(address, |data|) && address + |data| == ADDRESS_SPACE && s.IsUser(i)
    requires s.list[i].address >= address ==> WritesBreak(s.list[i], address, data)
    ensures Shows(Overwritten(s, address, data).raw, s.list[i])
  {
    ViewIsSeated(s, text, i);
    hide View;
    if s.list[i].address < address {
      NoneStraddles(address, |data|, s.list[i].address, s.list[i].mode);
    }
    WrittenIsShown(s.raw, s.list[i], address, data);
  }

  lemma TopStaysPatched(s: State, text: Memory, address: Address, data: seq<Byte>)
    requires View(s, text) && Accepted(address, |data|) && address + |data| == ADDRESS_SPACE
    requires forall i :: s.IsUser(i) && s.list[i].address >= address ==> WritesBreak(s.list[i], address, data)
    ensures Patched(Overwritten(s, address, data).raw, Overwritten(s, address, data).base, s.plants)
  {
    var after := Overwritten(s, address, data);
    InvPatched(s);
    OverwrittenAgrees(s, text, address, data);
    TopStaysListed(s, address, data);
    hide View;
    hide Apart;
    hide Recorded;
    hide FreeAgree;
    hide ListOk;
    hide EqualOrDisjoint;
    hide UsersApart;
    hide WritesBreak;
    hide Shows;
    forall i | after.IsUser(i) ensures Shows(after.raw, after.list[i]) {
      TopShows(s, text, address, data, i);
    }
    hide Counted;
    ShownIsPatched(s, after, Poke(text, address, data));
  }

  lemma TopKeepsViewIff(s: State, text: Memory, address: Address, data: seq<Byte>)
    requires View(s, text) && Accepted(address, |data|) && address + |data| == ADDRESS_SPACE
    requires Mapped(text, address, |data|)
    ensures View(Overwritten(s, address, data), Poke(text, address, data)) <==>
      forall i :: s.IsUser(i) && s.list[i].address >= address ==>
        WritesBreak(s.list[i], address, data) && Invisible(s.list[i])
  {
    var after, now := Overwritten(s, address, data), Poke(text, address, data);
    hide WritesBreak;
    hide Invisible;
    if View(after, now) {
      InvPatched(after);
      forall i | s.IsUser(i) && s.list[i].address >= address
        ensures WritesBreak(s.list[i], address, data) && Invisible(s.list[i])
      {
        TopWritesBreak(s, text, address, data, i);
        ViewIsSeated(s, text, i);
        NoneStraddles(address, |data|, s.list[i].address, s.list[i].mode);
        assert Saves(now, after.list[i]);
        SavedBreak(text, address, data, s.list[i]);
      }
    }
    if forall i :: s.IsUser(i) && s.list[i].address >= address ==> WritesBreak(s.list[i], address, data) && Invisible(s.list[i]) {
      TopStaysPatched(s, text, address, data);
      TopStaysSaved(s, text, address, data);
      TopStaysListed(s, address, data);
      OverwrittenAgrees(s, text, address, data);
      hide Patched;
      hide ListOk;
      hide Counted;
      hide EqualOrDisjoint;
      hide UsersApart;
      hide AllSave;
    }
  }

  lemma SavedBreak(text: Memory, address: Address, data: seq<Byte>, entry: BreakEntry)
    requires Saves(Poke(text, address, data), entry) && WritesBreak(entry, address, data)
    requires address <= entry.address && entry.address + BreakSize(entry.mode) <= address + |data|
    ensures Invisible(entry)
  {
    forall k | 0 <= k < BreakSize(entry.mode) ensures entry.instruction[k] == BreakBytes(entry.mode)[k] {
      assert Covers(entry.address, entry.mode, entry.address + k);
    }
  }

  lemma StaysSaved(text: Memory, address: Address, data: seq<Byte>, entry: BreakEntry)
    requires Saves(text, entry)
    requires entry.address + BreakSize(entry.mode) <= address || (WritesBreak(entry, address, data) && Invisible(entry))
    ensures Saves(Poke(text, address, data), entry)
  {
  }

  lemma TopStaysSaved(s: State, text: Memory, address: Address, data: seq<Byte>)
    requires View(s, text) && Accepted(address, |data|) && address + |data| == ADDRESS_SPACE
    requires forall i :: s.IsUser(i) && s.list[i].address >= address ==>
      WritesBreak(s.list[i], address, data) && Invisible(s.list[i])
    ensures AllSave(Overwritten(s, address, data), Poke(text, address, data))
  {
    hide View;
    hide WritesBreak;
    hide Invisible;
    hide Saves;
    forall i | s.IsUser(i) ensures Saves(Poke(text, address, data), s.list[i]) {
      ViewIsSeated(s, text, i);
      if s.list[i].address < address {
        NoneStraddles(address, |data|, s.list[i].address, s.list[i].mode);
      }
      StaysSaved(text, address, data, s.list[i]);
    }
  }

  lemma SamePlaces(s: State, after: State)
    requires Counted(s) && EqualOrDisjoint(s) && UsersApart(s)
    requires after.list == s.list && after.plants == s.plants
    ensures Counted(after) && EqualOrDisjoint(after) && UsersApart(after)
  {
    forall a | a in after.plants ensures UserAt(after, a) {
      var i :| s.IsUser(i) && s.list[i].address == a;
      assert after.IsUser(i);
    }
    forall i, j | TEMP_BREAKS <= i < |after.list| && TEMP_BREAKS <= j < |after.list|
      ensures SamePlace(after.list[i], after.list[j].address, after.list[j].mode)
    {
      assert SamePlace(s.list[i], s.list[j].address, s.list[j].mode);
    }
  }

  lemma TopStaysListed(s: State, address: Address, data: seq<Byte>)
    requires Inv(s) && UsersApart(s)
    ensures var after := Overwritten(s, address, data);
      ListOk(after) && Counted(after) && EqualOrDisjoint(after) && UsersApart(after)
  {
    hide Patched;
    hide Counted;
    hide EqualOrDisjoint;
    hide UsersApart;
    var after := Overwritten(s, address, data);
    SamePlaces(s, after);
    forall i | after.IsUser(i) ensures UserOk(after, after.list[i]) {
      assert UserOk(s, s.list[i]);
    }
  }
}
