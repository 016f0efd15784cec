/** Target code memory as the kernel sees it, and the contract of the kernel's code modifier: planting
    remembers the bytes it replaces, and restoring puts those back. `raw` is what memory holds; its
    `base` is what it would hold with nothing planted. */
module CodeMemory {

  type Byte = b: int | 0 <= b < 0x100

  const ADDRESS_SPACE := 0x1_0000_0000

  type Address = a: int | 0 <= a < ADDRESS_SPACE

  /** Byte-addressed memory; addresses outside its domain are not mapped. */
  type Memory = map<int, Byte>

  /** Instruction sets; OtherMode is any enumeration value the driver does not know. */
  datatype Mode = Arm | Thumb | Thumb2EE | OtherMode

  /** A planted breakpoint instruction: its instruction set, and the bytes it replaced when it was planted. */
  datatype Plant = Plant(mode: Mode, original: seq<Byte>)

  /** What the kernel's code modifier remembers. */
  type Plants = map<int, Plant>

  function BreakSize(mode: Mode): nat {
    match mode
    case Arm => 4
    case Thumb => 2
    case Thumb2EE => 2
    case OtherMode => 0
  }

  /** The breakpoint instruction, least significant byte first. */
  function BreakBytes(mode: Mode): (bytes: seq<Byte>)
    ensures |bytes| == BreakSize(mode)
  {
    match mode
    case Arm => [0xF4, 0x23, 0xF1, 0xE7]
    case Thumb => [0x56, 0xDE]
    case Thumb2EE => [0x00, 0xC1]
    case OtherMode => []
  }

  /** The instruction sets a breakpoint can be planted for. */
  predicate Supported(mode: Mode) {
    mode.Arm? || mode.Thumb?
  }

  predicate Aligned(address: int, mode: Mode) {
    match mode
    case Arm => address % 4 == 0
    case Thumb => address % 2 == 0
    case Thumb2EE => address % 2 == 0
    case OtherMode => false
  }

  predicate Covers(address: int, mode: Mode, x: int) {
    address <= x < address + BreakSize(mode)
  }

  /** Two breakpoint locations share a byte. */
  predicate Intersect(a: int, m: Mode, b: int, n: Mode) {
    a < b + BreakSize(n) && b < a + BreakSize(m)
  }

  predicate Mapped(memory: Memory, address: int, length: nat) {
    forall x :: address <= x < address + length ==> x in memory
  }

  function Peek(memory: Memory, address: int, length: nat): (bytes: seq<Byte>)
    requires Mapped(memory, address, length)
    ensures |bytes| == length
    ensures forall i :: 0 <= i < length ==> bytes[i] == memory[address + i]
  {
    seq(length, i requires 0 <= i < length => memory[address + i])
  }

  function Poke(memory: Memory, address: int, bytes: seq<Byte>): (result: Memory)
    ensures result.Keys == memory.Keys
    ensures forall x :: x in memory ==>
      result[x] == if address <= x < address + |bytes| then bytes[x - address] else memory[x]
  {
    map x | x in memory :: if address <= x < address + |bytes| then bytes[x - address] else memory[x]
  }

  predicate Uncovered(plants: Plants, x: int) {
    forall p :: p in plants ==> !Covers(p, plants[p].mode, x)
  }

  /** Planted locations are mapped, of a supported instruction set, and pairwise apart. */
  ghost predicate Apart(memory: Memory, plants: Plants) {
    && (forall p :: p in plants ==> Supported(plants[p].mode) && Mapped(memory, p, BreakSize(plants[p].mode)))
    && (forall p, q :: p in plants && q in plants && p != q ==> !Intersect(p, plants[p].mode, q, plants[q].mode))
  }

  /** The bytes remembered for each location are those of the given memory. */
  ghost predicate Recorded(base: Memory, plants: Plants) {
    forall p :: p in plants ==>
      Mapped(base, p, BreakSize(plants[p].mode)) && plants[p].original == Peek(base, p, BreakSize(plants[p].mode))
  }

  /** Memory is the base with exactly the given breakpoint instructions planted, and the base is what
      restoring them all would leave. */
  ghost predicate Patched(raw: Memory, base: Memory, plants: Plants) {
    && raw.Keys == base.Keys
    && Apart(base, plants)
    && Recorded(base, plants)
    && (forall p, x :: p in plants && Covers(p, plants[p].mode, x) ==> raw[x] == BreakBytes(plants[p].mode)[x - p])
    && (forall x :: x in base && Uncovered(plants, x) ==> raw[x] == base[x])
  }

  /** A location that is either planted already in the same way, or shares no byte with any planted one. */
  ghost predicate SameOrApart(plants: Plants, address: int, mode: Mode) {
    forall p :: p in plants ==>
      (p == address && plants[p].mode == mode) || !Intersect(p, plants[p].mode, address, mode)
  }

  /** What is remembered once a location is planted: the first planting records the bytes it replaces. */
  function Planted(raw: Memory, plants: Plants, address: int, mode: Mode): Plants
    requires Mapped(raw, address, BreakSize(mode))
  {
    if address in plants then plants else plants[address := Plant(mode, Peek(raw, address, BreakSize(mode)))]
  }

  /** The record of a location planted over the base. */
  function PlantOver(base: Memory, address: int, mode: Mode): Plant
    requires Mapped(base, address, BreakSize(mode))
  {
    Plant(mode, Peek(base, address, BreakSize(mode)))
  }

  lemma SameMode(base: Memory, plants: Plants, address: int, mode: Mode)
    requires Apart(base, plants) && SameOrApart(plants, address, mode) && Supported(mode)
    ensures address in plants ==> plants[address].mode == mode
  {
    assert address in plants ==> BreakSize(plants[address].mode) > 0;
  }

  /** A free location holds what the base holds. */
  lemma FreeLocation(raw: Memory, base: Memory, plants: Plants, address: int, mode: Mode)
    requires Patched(raw, base, plants)
    requires Supported(mode) && Mapped(base, address, BreakSize(mode))
    requires SameOrApart(plants, address, mode) && address !in plants
    ensures Mapped(raw, address, BreakSize(mode))
    ensures Peek(raw, address, BreakSize(mode)) == Peek(base, address, BreakSize(mode))
  {
    forall k | 0 <= k < BreakSize(mode)
      ensures Peek(raw, address, BreakSize(mode))[k] == Peek(base, address, BreakSize(mode))[k]
    {
      forall p | p in plants ensures !Covers(p, plants[p].mode, address + k) {
        assert !Intersect(p, plants[p].mode, address, mode);
      }
      assert Uncovered(plants, address + k);
    }
  }

  /** Planting remembers the base's bytes, whether it plants for the first time or again. */
  lemma PlantedRecordsBase(raw: Memory, base: Memory, plants: Plants, address: int, mode: Mode)
    requires Patched(raw, base, plants)
    requires Supported(mode) && Mapped(base, address, BreakSize(mode))
    requires SameOrApart(plants, address, mode)
    ensures Mapped(raw, address, BreakSize(mode))
    ensures Planted(raw, plants, address, mode) == plants[address := PlantOver(base, address, mode)]
  {
    SameMode(base, plants, address, mode);
    if address in plants {
      assert plants[address] == PlantOver(base, address, mode);
    } else {
      FreeLocation(raw, base, plants, address, mode);
    }
  }

  lemma PlantKeepsApart(base: Memory, plants: Plants, address: int, mode: Mode)
    requires Apart(base, plants) && SameOrApart(plants, address, mode)
    requires Supported(mode) && Mapped(base, address, BreakSize(mode))
    ensures Apart(base, plants[address := PlantOver(base, address, mode)])
  {
    var planted := plants[address := PlantOver(base, address, mode)];
    forall p, q | p in planted && q in planted && p != q ensures !Intersect(p, planted[p].mode, q, planted[q].mode) {
      assert q != address ==> !Intersect(q, plants[q].mode, address, mode) || p != address;
    }
  }

  lemma PlantedByte(raw: Memory, base: Memory, plants: Plants, address: int, mode: Mode, p: int, x: int)
    requires Patched(raw, base, plants)
    requires SameOrApart(plants, address, mode) && Mapped(base, address, BreakSize(mode))
    requires var planted := plants[address := PlantOver(base, address, mode)]; p in planted && Covers(p, planted[p].mode, x)
    ensures var planted := plants[address := PlantOver(base, address, mode)];
      x in raw && Poke(raw, address, BreakBytes(mode))[x] == BreakBytes(planted[p].mode)[x - p]
  {
    if p != address {
      assert !Intersect(p, plants[p].mode, address, mode);
    }
  }

  lemma UncoveredByte(raw: Memory, base: Memory, plants: Plants, address: int, mode: Mode, x: int)
    requires Patched(raw, base, plants) && Mapped(base, address, BreakSize(mode))
    requires x in base && Uncovered(plants[address := PlantOver(base, address, mode)], x)
    requires address in plants ==> plants[address].mode == mode
    ensures Poke(raw, address, BreakBytes(mode))[x] == base[x]
  {
    hide Apart;
    hide Recorded;
    var planted := plants[address := PlantOver(base, address, mode)];
    assert address in planted && !Covers(address, planted[address].mode, x);
    forall p | p in plants ensures !Covers(p, plants[p].mode, x) {
      assert p in planted;
    }
  }

  lemma PlantKeepsPatched(raw: Memory, base: Memory, plants: Plants, address: int, mode: Mode)
    requires Patched(raw, base, plants)
    requires Supported(mode) && Mapped(base, address, BreakSize(mode))
    requires SameOrApart(plants, address, mode)
    ensures Mapped(raw, address, BreakSize(mode))
    ensures Planted(raw, plants, address, mode) == plants[address := PlantOver(base, address, mode)]
    ensures Patched(Poke(raw, address, BreakBytes(mode)), base, Planted(raw, plants, address, mode))
  {
    PlantedRecordsBase(raw, base, plants, address, mode);
    PlantKeepsApart(base, plants, address, mode);
    SameMode(base, plants, address, mode);
    var planted := plants[address := PlantOver(base, address, mode)];
    var poked := Poke(raw, address, BreakBytes(mode));
    hide Apart;
    assert Recorded(base, planted);
    hide Recorded;
    forall p, x | p in planted && Covers(p, planted[p].mode, x) ensures poked[x] == BreakBytes(planted[p].mode)[x - p] {
      PlantedByte(raw, base, plants, address, mode, p, x);
    }
    forall x | x in base && Uncovered(planted, x) ensures poked[x] == base[x] {
      UncoveredByte(raw, base, plants, address, mode, x);
    }
  }

  lemma RestoredByte(raw: Memory, base: Memory, plants: Plants, address: int, x: int)
    requires Patched(raw, base, plants) && address in plants
    requires x in base && Uncovered(plants - {address}, x)
    ensures Poke(raw, address, plants[address].original)[x] == base[x]
  {
    hide Apart;
    var left := plants - {address};
    if !Covers(address, plants[address].mode, x) {
      forall p | p in plants ensures !Covers(p, plants[p].mode, x) {
        if p != address {
          assert p in left && left[p] == plants[p];
        }
      }
      assert Uncovered(plants, x);
    }
  }

  lemma RestoreKeepsPatched(raw: Memory, base: Memory, plants: Plants, address: int)
    requires Patched(raw, base, plants)
    requires address in plants
    ensures Patched(Poke(raw, address, plants[address].original), base, plants - {address})
  {
    var left := plants - {address};
    var poked := Poke(raw, address, plants[address].original);
    forall p, x | p in left && Covers(p, left[p].mode, x)
      ensures poked[x] == BreakBytes(left[p].mode)[x - p]
    {
      assert !Intersect(p, plants[p].mode, address, plants[address].mode);
    }
    forall x | x in base && Uncovered(left, x) ensures poked[x] == base[x] {
      RestoredByte(raw, base, plants, address, x);
    }
  }

  /** Which breakpoints are planted determines every byte of memory. */
  lemma PatchedDetermines(raw: Memory, other: Memory, base: Memory, plants: Plants)
    requires Patched(raw, base, plants) && Patched(other, base, plants)
    ensures raw == other
  {
    forall x | x in raw ensures raw[x] == other[x] {
      if !Uncovered(plants, x) {
        var p :| p in plants && Covers(p, plants[p].mode, x);
        assert raw[x] == BreakBytes(plants[p].mode)[x - p];
      }
    }
  }

  /** Memory and what is remembered determine what restoring everything would leave: the base is no
      choice of the model's. */
  lemma BaseIsDetermined(raw: Memory, base: Memory, other: Memory, plants: Plants)
    requires Patched(raw, base, plants) && Patched(raw, other, plants)
    ensures base == other
  {
    forall x | x in base ensures base[x] == other[x] {
      if !Uncovered(plants, x) {
        var p :| p in plants && Covers(p, plants[p].mode, x);
        assert plants[p].original[x - p] == base[x];
        assert plants[p].original[x - p] == other[x];
      }
    }
  }

  lemma NothingPlantedIsBase(raw: Memory, base: Memory)
    requires Patched(raw, base, map[])
    ensures raw == base
  {
    forall x | x in raw ensures raw[x] == base[x] {
      assert Uncovered(map[], x);
    }
  }
}
