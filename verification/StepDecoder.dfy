/** Where the next instruction is: the decoder's closed forms against what the ARM ARM (DDI 0406A) says the
    processor does, and exactly when the two differ. */
module StepDecoder {
  import opened Words

  type Word = w: nat | w < WORD

  // ---------------------------------------------------------------- loading the program counter

  /** The address the program counter is loaded from by a load-multiple, as the decoder computes it. */
  function BlockAddress(inst: Word, rn: Word): int {
    var up := Shr(And(inst, 0x0080_0000), 23);
    var pre := Shr(And(inst, 0x0100_0000), 24);
    var offset :=
      if up != 0 then BitsSet(And(inst, 0xFFFF)) * 4 - 4 + (if pre != 0 then 4 else 0)
      else if pre != 0 then -4 else 0;
    (rn + offset) % WORD
  }

  /** The first address of the transfer: sections A8.6.53 to A8.6.56. */
  function TransferStart(increment: bool, before: bool, rn: Word, count: nat): int {
    if increment then if before then rn + 4 else rn
    else if before then rn - 4 * count else rn - 4 * count + 4
  }

  /** The transfer register by register, from register r on: where the last register, 15, is loaded from. */
  function TransferLast(list: nat, r: nat, address: int): int
    requires r <= 15
    decreases 15 - r
  {
    if r == 15 then address else TransferLast(list / 2, r + 1, if list % 2 == 1 then address + 4 else address)
  }

  lemma {:induction false} TransferLastCounts(list: nat, r: nat, address: int)
    requires r <= 15
    ensures TransferLast(list, r, address) == address + 4 * BitsSet(Low(list, 15 - r))
    decreases 15 - r
  {
    if r >= 15 {
    } else {
      hide BitsSet;
      TransferLastCounts(list / 2, r + 1, if list % 2 == 1 then address + 4 else address);
      BitsSetDouble(Low(list / 2, 14 - r), list % 2);
    }
  }

  /** With register 15 in the list, it is loaded from the word above all the others. */
  lemma LastIsAboveOthers(list: nat, address: int)
    ensures list <= 0xFFFF && Shr(list, 15) % 2 == 1 ==>
      TransferLast(list, 0, address) == address + 4 * (BitsSet(list) - 1)
  {
    hide TransferLast;
    hide Low;
    hide Shr;
    hide Ones;
    if list <= 0xFFFF && Shr(list, 15) % 2 == 1 {
      TransferLastCounts(list, 0, address);
      BitsSetSplit(list, 15);
      OnesWide();
      TopBit(list, 15);
      assert BitsSet(1) == 1;
    }
  }

  /** In all four modes the decoder reads the word the processor loads the program counter from. */
  lemma BlockAddressIsTransferred(inst: Word, rn: Word)
    requires Shr(inst, 15) % 2 == 1
    ensures var list := Low(inst, 16);
      BlockAddress(inst, rn) ==
        TransferLast(list, 0, TransferStart(Shr(inst, 23) % 2 == 1, Shr(inst, 24) % 2 == 1, rn, BitsSet(list))) % WORD
  {
    hide TransferLast;
    hide Low;
    hide Shr;
    hide Ones;
    hide BitsSet;
    hide Up;
    hide And;
    var list := Low(inst, 16);
    OneBitField(inst, 23);
    OneBitField(inst, 24);
    UpWide(1);
    OnesWide();
    AndLow(inst, 16);
    LowSmall(inst, 16);
    LowKeepsBit(inst, 16, 15);
    LastIsAboveOthers(list, TransferStart(Shr(inst, 23) % 2 == 1, Shr(inst, 24) % 2 == 1, rn, BitsSet(list)));
  }

  lemma OneBitField(x: nat, k: nat)
    ensures Shr(And(x, Up(1, k)), k) == Shr(x, k) % 2
  {
    assert Ones(1) == 1;
    Field(x, k, 1);
    assert Low(Shr(x, k), 1) == Shr(x, k) % 2;
  }

  lemma {:induction false} LowKeepsBit(x: nat, k: nat, i: nat)
    ensures i < k ==> Shr(Low(x, k), i) % 2 == Shr(x, i) % 2
    decreases i
  {
    if i < k {
      var low := Low(x, k);
      assert low == x % 2 + 2 * Low(x / 2, k - 1);
      if i == 0 {
      } else {
        assert low / 2 == Low(x / 2, k - 1);
        LowKeepsBit(x / 2, k - 1, i - 1);
      }
    }
  }

  /** The address the program counter is popped from, as the decoder computes it. */
  function PopAddress(inst: nat, sp: Word): int {
    (sp + BitsSet(And(inst, 0xFF)) * 4) % WORD
  }

  /** Popping with the program counter in the list is a transfer of the eight low registers and register 15
      from the stack pointer up: section A8.6.121. */
  lemma PopAddressIsTransferred(inst: nat, sp: Word)
    ensures PopAddress(inst, sp) == TransferLast(Low(inst, 8) + 0x8000, 0, sp) % WORD
  {
    hide TransferLast;
    hide Low;
    hide Shr;
    hide Ones;
    hide Up;
    hide And;
    var low := Low(inst, 8);
    var list := low + 0x8000;
    OnesWide();
    UpWide(1);
    AndLow(inst, 8);
    LowSmall(inst, 8);
    AddAbove(low, 1, 15);
    BitsSetSplit(list, 15);
    assert BitsSet(1) == 1;
    LastIsAboveOthers(list, sp);
  }

  /** Bits added above leave the low ones as they are. */
  lemma {:induction false} AddAbove(x: nat, y: nat, k: nat)
    ensures x <= Ones(k) ==> Low(x + Up(y, k), k) == x && Shr(x + Up(y, k), k) == y
    decreases k
  {
    if x <= Ones(k) {
      if k == 0 {
      } else {
        AddAbove(x / 2, y, k - 1);
        assert (x + Up(y, k)) / 2 == x / 2 + Up(y, k - 1) && (x + Up(y, k)) % 2 == x % 2;
      }
    }
  }

  // ---------------------------------------------------------------- branches

  /** The w low bits of x as a signed number. */
  function SignExtend(x: nat, w: nat): int
    requires w > 0
  {
    if Shr(x, w - 1) % 2 == 1 then Low(x, w) - Up(1, w) else Low(x, w)
  }

  /** Filling a word with ones from the sign bit up. */
  function FillSign(x: nat, sign: nat, mask: nat): nat {
    if And(x, sign) != 0 then Or(x, mask) else x
  }

  /** The decoder's way of extending a sign is sign extension, in words. */
  lemma FillSignExtends(x: nat, w: nat)
    ensures 0 < w <= 32 && x <= Ones(w) ==>
      FillSign(x, Up(1, w - 1), Up(Ones(33 - w), w - 1)) % WORD == SignExtend(x, w) % WORD
  {
    hide Low;
    hide Shr;
    hide And;
    hide Or;
    if 0 < w <= 32 && x <= Ones(w) {
      var k := w - 1;
      AndBit(x, k);
      TopBit(x, k);
      LowSmall(x, w);
      OrSplit(x, Ones(33 - w), k);
      OrWithOdd(Ones(32 - w));
      UpOnes(33 - w, k);
      assert Up(1, w) == 2 * Up(1, k) && Up(1, k) > 0;
    }
  }

  /** Ones up to the top of a word are all a word holds but the low bits. */
  lemma UpOnes(n: nat, k: nat)
    ensures n + k == 32 ==> Up(Ones(n), k) == WORD - Up(1, k)
  {
    hide Up;
    hide Ones;
    if n + k == 32 {
      assert Ones(n) + 1 == Up(1, n) by {
        UpOne(n);
      }
      UpAdd(Ones(n), 1, k);
      UpUp(1, n, k);
      UpWide(1);
    }
  }

  /** The targets of the branches, as the decoder computes them. */
  function ConditionalTarget(inst: nat, pc: Word): int {
    (pc + 4 + FillSign(Shl(And(inst, 0xFF), 1), 0x100, 0xFFFF_FF00)) % WORD
  }

  function ThumbTarget(inst: nat, pc: Word): int {
    (pc + 4 + FillSign(Shl(And(inst, 0x7FF), 1), 0x800, 0xFFFF_F800)) % WORD
  }

  function ArmTarget(inst: Word, pc: Word): int {
    (Shl(FillSign(And(inst, 0x00FF_FFFF), 0x0080_0000, 0xFF00_0000), 2) + pc + 8) % WORD
  }

  lemma AddWrapped(a: int, b: int, c: int)
    ensures b % WORD == c % WORD ==> (a + b) % WORD == (a + c) % WORD
  {
    if b % WORD == c % WORD {
      var d := b / WORD - c / WORD;
      assert a + b == a + c + d * WORD;
      AddTurns(a + c, d);
    }
  }

  lemma AddTurns(a: int, turns: int)
    ensures (a + turns * WORD) % WORD == a % WORD
  {
    Quotient(a + turns * WORD, WORD, a / WORD + turns, a % WORD);
  }

  lemma Doubled(x: nat, w: nat)
    ensures 0 < w < 32 && x <= Ones(w) ==> Shl(x, 1) == 2 * x && 2 * x <= Ones(w + 1)
    ensures 0 < w < 32 && x <= Ones(w) ==> SignExtend(2 * x, w + 1) == 2 * SignExtend(x, w)
  {
    if 0 < w < 32 && x <= Ones(w) {
      OnesGrow(w + 1);
      assert Up(x, 1) == 2 * x;
      assert Shr(2 * x, w) == Shr(x, w - 1);
      assert Low(2 * x, w + 1) == 2 * Low(x, w);
      assert Up(1, w + 1) == 2 * Up(1, w);
    }
  }

  lemma {:induction false} OnesGrow(w: nat)
    ensures w <= 32 ==> Ones(w) < WORD
    decreases 32 - w
  {
    if w <= 32 {
      if w < 32 {
        OnesGrow(w + 1);
      } else {
        OnesWide();
      }
    }
  }

  lemma BranchConstants()
    ensures Ones(8) == 0xFF && Ones(11) == 0x7FF && Ones(24) == 0x00FF_FFFF
    ensures Up(1, 8) == 0x100 && Up(1, 11) == 0x800 && Up(1, 23) == 0x0080_0000
    ensures Up(Ones(24), 8) == 0xFFFF_FF00 && Up(Ones(21), 11) == 0xFFFF_F800 && Up(Ones(9), 23) == 0xFF80_0000
  {
    hide Up;
    hide Ones;
    OnesWide();
    UpWide(1);
    UpOnes(24, 8);
    UpOnes(21, 11);
    UpOnes(9, 23);
  }

  /** The conditional Thumb branch goes to the instruction's address plus four plus twice the signed offset:
      section A8.6.16, encoding T1. */
  lemma ConditionalTargetIsRelative(inst: nat, pc: Word)
    ensures ConditionalTarget(inst, pc) == (pc + 4 + 2 * SignExtend(Low(inst, 8), 8)) % WORD
  {
    hide Low;
    hide Shr;
    hide Ones;
    hide Up;
    hide And;
    hide Or;
    hide SignExtend;
    hide FillSign;
    hide Shl;
    var x := Low(inst, 8);
    BranchConstants();
    AndLow(inst, 8);
    LowSmall(inst, 8);
    Doubled(x, 8);
    FillSignExtends(2 * x, 9);
    AddWrapped(pc + 4, FillSign(2 * x, 0x100, 0xFFFF_FF00), SignExtend(2 * x, 9));
  }

  /** The unconditional Thumb branch likewise, with eleven bits: encoding T2. */
  lemma ThumbTargetIsRelative(inst: nat, pc: Word)
    ensures ThumbTarget(inst, pc) == (pc + 4 + 2 * SignExtend(Low(inst, 11), 11)) % WORD
  {
    hide Low;
    hide Shr;
    hide Ones;
    hide Up;
    hide And;
    hide Or;
    hide SignExtend;
    hide FillSign;
    hide Shl;
    var x := Low(inst, 11);
    BranchConstants();
    AndLow(inst, 11);
    LowSmall(inst, 11);
    Doubled(x, 11);
    FillSignExtends(2 * x, 12);
    AddWrapped(pc + 4, FillSign(2 * x, 0x800, 0xFFFF_F800), SignExtend(2 * x, 12));
  }

  lemma ShlWrapped(x: nat, y: int)
    ensures x % WORD == y % WORD ==> Shl(x, 2) % WORD == (4 * y) % WORD
  {
    if x % WORD == y % WORD {
      assert Up(x, 2) == 4 * x;
      var d := x / WORD - y / WORD;
      assert 4 * x == 4 * y + (4 * d) * WORD;
      AddTurns(4 * y, 4 * d);
    }
  }

  /** The ARM branch goes to the instruction's address plus eight plus four times the signed offset: encoding A1. */
  lemma ArmTargetIsRelative(inst: Word, pc: Word)
    ensures ArmTarget(inst, pc) == (pc + 8 + 4 * SignExtend(Low(inst, 24), 24)) % WORD
  {
    hide Low;
    hide Shr;
    hide Ones;
    hide Up;
    hide And;
    hide Or;
    hide SignExtend;
    hide FillSign;
    hide Shl;
    var x := Low(inst, 24);
    BranchConstants();
    AndLow(inst, 24);
    LowSmall(inst, 24);
    FillSignExtends(x, 24);
    SameFill(x);
    var filled := FillSign(x, 0x0080_0000, 0xFF00_0000);
    ShlWrapped(filled, SignExtend(x, 24));
    AddWrapped(pc + 8, Shl(filled, 2), 4 * SignExtend(x, 24));
  }

  /** The lowest bit is there already. */
  lemma OrWithOdd(h: nat)
    ensures Or(1, 1 + 2 * h) == 1 + 2 * h
  {
    OrHalves(1, 1 + 2 * h);
    assert Or(0, h) == h;
  }

  /** Filling from the sign bit itself or from the one above it is the same. */
  lemma SameFill(x: nat)
    ensures x <= 0x00FF_FFFF ==> FillSign(x, 0x0080_0000, 0xFF00_0000) == FillSign(x, 0x0080_0000, 0xFF80_0000)
  {
    hide Low;
    hide Shr;
    hide Ones;
    hide Up;
    hide And;
    hide Or;
    if x <= 0x00FF_FFFF {
      OnesWide();
      UpWide(1);
      UpWide(0xFF);
      UpWide(0x1FF);
      AndBit(x, 23);
      TopBit(x, 23);
      OrIsSum(x, 0xFF, 24);
      OrSplit(x, 0x1FF, 23);
      OrWithOdd(0xFF);
    }
  }

  /** A branch that changes to Thumb is decoded like one that does not. The halfword bit of its offset is
      left out, so the target is right exactly when that bit, 24, is clear: encoding A2 of BLX. */
  lemma ChangingTargetIff(inst: Word, pc: Word)
    requires pc % 4 == 0
    ensures ArmTarget(inst, pc) == (pc + 8 + 4 * SignExtend(Low(inst, 24), 24) + 2 * (Shr(inst, 24) % 2)) % WORD <==>
      Shr(inst, 24) % 2 == 0
  {
    hide ArmTarget;
    hide SignExtend;
    hide Low;
    hide Shr;
    ArmTargetIsRelative(inst, pc);
    var offset, bit := SignExtend(Low(inst, 24), 24), Shr(inst, 24) % 2;
    WordAligned(pc, offset);
    TwoMoreIff(pc + 8 + 4 * offset, bit);
  }

  lemma WordAligned(pc: Word, offset: int)
    requires pc % 4 == 0
    ensures (pc + 8 + 4 * offset) % 4 == 0
  {
  }

  lemma TwoMoreIff(a: int, bit: int)
    requires a % 4 == 0 && 0 <= bit < 2
    ensures a % WORD == (a + 2 * bit) % WORD <==> bit == 0
  {
    ShiftedBy(a, 2 * bit);
  }

  // ---------------------------------------------------------------- conditions

  predicate StatusBit(status: Word, k: nat) {
    Shr(status, k) % 2 == 1
  }

  /** The four flags as the decoder holds them: each masked in its own place. */
  function Flag(status: Word, mask: nat): nat {
    And(And(Shr(status, 28), 0xF), mask)
  }

  function IsExecuted(condition: nat, status: Word): bool {
    var n, z, c, v := Flag(status, 8), Flag(status, 4), Flag(status, 2), Flag(status, 1);
    match condition
    case 0 => z != 0
    case 1 => z == 0
    case 2 => c != 0
    case 3 => c == 0
    case 4 => n != 0
    case 5 => n == 0
    case 6 => v != 0
    case 7 => v == 0
    case 8 => c != 0 && z == 0
    case 9 => c == 0 || z != 0
    case 10 => n == v
    case 11 => n != v
    case 12 => n == v && z == 0
    case 13 => z != 0 || n != v
    case 14 => true
    case 15 => true
    case _ => false
  }

  /** Section A8.3 of the ARM ARM. */
  predicate ConditionPassed(condition: nat, status: Word) {
    var n, z, c, v := StatusBit(status, 31), StatusBit(status, 30), StatusBit(status, 29), StatusBit(status, 28);
    match condition
    case 0 => z
    case 1 => !z
    case 2 => c
    case 3 => !c
    case 4 => n
    case 5 => !n
    case 6 => v
    case 7 => !v
    case 8 => c && !z
    case 9 => !c || z
    case 10 => n == v
    case 11 => n != v
    case 12 => !z && n == v
    case 13 => z || n != v
    case _ => true
  }

  lemma {:induction false} ShrAdd(x: nat, s: nat, t: nat)
    ensures Shr(Shr(x, s), t) == Shr(x, s + t)
    decreases s
  {
    if s == 0 {
    } else {
      ShrAdd(x / 2, s - 1, t);
    }
  }

  lemma FlagIsBit(status: Word, k: nat)
    requires k < 4
    ensures Flag(status, Up(1, k)) == if StatusBit(status, 28 + k) then Up(1, k) else 0
  {
    var nibble := Low(Shr(status, 28), 4);
    assert Ones(4) == 0xF;
    AndLow(Shr(status, 28), 4);
    AndBit(nibble, k);
    LowKeepsBit(Shr(status, 28), 4, k);
    ShrAdd(status, 28, k);
  }

  /** The decoder's test is the architecture's, unless both the negative and the overflow flag are set and
      the condition compares them: they are held as eight and as one, and compared as numbers. */
  lemma IsExecutedIff(condition: nat, status: Word)
    requires condition < 16
    ensures (IsExecuted(condition, status) <==> ConditionPassed(condition, status)) <==>
      !(StatusBit(status, 31) && StatusBit(status, 28) &&
        (condition == 10 || condition == 11 || (!StatusBit(status, 30) && (condition == 12 || condition == 13))))
  {
    FlagIsBit(status, 0);
    FlagIsBit(status, 1);
    FlagIsBit(status, 2);
    FlagIsBit(status, 3);
    assert Up(1, 0) == 1 && Up(1, 1) == 2 && Up(1, 2) == 4 && Up(1, 3) == 8;
  }

  // ---------------------------------------------------------------- shifted operands

  datatype Shift = LSL | LSR | ASR | ROR

  predicate Carry(status: Word) {
    StatusBit(status, 29)
  }

  /** The decoder's shift of a register by an immediate amount. */
  function ShiftedValue(shift: Shift, amount: nat, value: Word, status: Word): nat
    requires amount < 32
  {
    match shift
    case LSL => Shl(value, amount)
    case LSR => Shr(value, amount)
    case ASR => if And(value, 0x8000_0000) != 0 then Not(Shr(Not(value), amount)) else Shr(value, amount)
    case ROR =>
      if amount == 0 then Or(Shr(value, 1), if And(status, 0x2000_0000) != 0 then 0x8000_0000 else 0)
      else Or(Shr(value, amount), Shl(value, 32 - amount))
  }

  /** One place to the right, the lowest bit moving to the top. */
  function RotateOnce(value: Word): Word {
    value / 2 + if value % 2 == 1 then 0x8000_0000 else 0
  }

  function Rotated(value: Word, amount: nat): Word
    decreases amount
  {
    if amount == 0 then value else RotateOnce(Rotated(value, amount - 1))
  }

  /** A signed number as a word. */
  function Unsigned(x: int): nat {
    x % WORD
  }

  /** Divided by a power of two, rounding down. */
  function Divided(x: int, amount: nat): int {
    x / Pow2(amount)
  }

  /** Section A8.4: an amount of zero means 32 for the right shifts, and a rotation through the carry. */
  function ArchitectureShift(shift: Shift, amount: nat, value: Word, status: Word): int
    requires amount < 32
  {
    match shift
    case LSL => (value * Pow2(amount)) % WORD
    case LSR => Divided(value, if amount == 0 then 32 else amount)
    case ASR => Unsigned(Divided(Signed(value), if amount == 0 then 32 else amount))
    case ROR => if amount == 0 then value / 2 + (if Carry(status) then 0x8000_0000 else 0) else Rotated(value, amount)
  }

  /** Dividing the complement and complementing again rounds down. */
  lemma FloorByComplement(x: int, p: int)
    ensures p > 0 ==> -1 - (-1 - x) / p == x / p
  {
    if p > 0 {
      var y := -1 - x;
      var q, r := y / p, y % p;
      assert y == q * p + r;
      assert (-1 - q) * p == -p - q * p;
      Quotient(x, p, -1 - q, p - 1 - r);
    }
  }

  lemma SignBit(x: Word)
    ensures And(x, 0x8000_0000) != 0 <==> x >= 0x8000_0000
  {
    hide And;
    hide Low;
    hide Shr;
    hide Up;
    hide Ones;
    UpWide(1);
    OnesWide();
    AndBit(x, 31);
    TopBit(x, 31);
  }

  /** The arithmetic shift divides the signed number, rounding down. */
  lemma ArithmeticShiftFloors(value: Word, amount: nat, status: Word)
    requires amount < 32
    ensures ShiftedValue(ASR, amount, value, status) == Unsigned(Signed(value) / Pow2(amount))
  {
    SignBit(value);
    ShrDivides(value, amount);
    if value >= 0x8000_0000 {
      ShrDivides(Not(value), amount);
      FloorByComplement(Signed(value), Pow2(amount));
      assert Not(value) == -1 - Signed(value);
      var q := Signed(value) / Pow2(amount);
      assert Shr(Not(value), amount) == -1 - q;
      assert 0 <= -1 - q < WORD;
      Quotient(q, WORD, -1, q + WORD);
    } else {
      Quotient(Shr(value, amount), WORD, 0, Shr(value, amount));
    }
  }

  /** The upper part of a rotation, and the lower part. */
  lemma {:induction false} RotatedParts(value: Word, amount: nat)
    ensures amount <= 32 ==> Rotated(value, amount) == Shr(value, amount) + Up(Low(value, amount), 32 - amount)
    decreases amount
  {
    hide Shr;
    hide Up;
    hide Low;
    if amount <= 32 {
      if amount == 0 {
        NothingShifted(value);
      } else {
        RotatedParts(value, amount - 1);
        LowMoved(value, amount - 1);
        hide Rotated;
        assert Rotated(value, amount) == RotateOnce(Rotated(value, amount - 1)) by {
          assert Rotated(value, amount) == RotateOnce(Rotated(value, amount - 1));
        }
        HalfOfSum(Shr(value, amount - 1), Up(Low(value, amount - 1), 32 - amount));
      }
    }
  }

  lemma NothingShifted(value: Word)
    ensures Shr(value, 0) == value && Up(Low(value, 0), 32) == 0
  {
    UpZero(32);
  }

  /** The parts of a rotation by one place more. */
  lemma LowMoved(value: Word, s: nat)
    ensures s < 32 ==> Shr(value, s + 1) == Shr(value, s) / 2
    ensures s < 32 ==> Up(Low(value, s), 32 - s) == 2 * Up(Low(value, s), 31 - s)
    ensures s < 32 ==>
      Up(Low(value, s + 1), 31 - s) == Up(Low(value, s), 31 - s) + if Shr(value, s) % 2 == 1 then 0x8000_0000 else 0
  {
    hide Low;
    hide Shr;
    hide Up;
    if s < 32 {
      ShrLast(value, s);
      LowLast(value, s);
      var b := Shr(value, s) % 2;
      UpAdd(Low(value, s), Up(b, s), 31 - s);
      UpUp(b, s, 31 - s);
      UpNext(Low(value, s), 31 - s);
      UpWide(b);
    }
  }

  lemma HalfOfSum(a: nat, b: nat)
    ensures (a + 2 * b) / 2 == a / 2 + b && (a + 2 * b) % 2 == a % 2
  {
  }

  /** What a left shift within a word keeps: the bits that do not leave it. */
  lemma ShlKeepsLow(value: Word, amount: nat)
    ensures 0 < amount <= 32 ==> Shl(value, 32 - amount) == Up(Low(value, amount), 32 - amount)
  {
    hide Up;
    hide Ones;
    hide Low;
    hide Shr;
    if 0 < amount <= 32 {
      var k := 32 - amount;
      LowAndRest(value, amount);
      UpAdd(Low(value, amount), Up(Shr(value, amount), amount), k);
      UpUp(Shr(value, amount), amount, k);
      UpMultiplies(Shr(value, amount), 32);
      Pow2Word();
      LowSmall(value, amount);
      UpMonotone(Low(value, amount), Ones(amount), k);
      UpOnes(amount, k);
      Quotient(Up(value, k), WORD, Shr(value, amount), Up(Low(value, amount), k));
    }
  }

  lemma {:induction false} UpMonotone(x: nat, y: nat, s: nat)
    ensures x <= y ==> Up(x, s) <= Up(y, s)
    decreases s
  {
    if x <= y {
      if s == 0 {
      } else {
        UpMonotone(x, y, s - 1);
      }
    }
  }

  lemma {:induction false} ShrSmall(x: nat, s: nat, n: nat)
    ensures x <= Ones(s + n) ==> Shr(x, s) <= Ones(n)
    decreases s
  {
    if x <= Ones(s + n) {
      if s == 0 {
      } else {
        ShrSmall(x / 2, s - 1, n);
      }
    }
  }

  /** The decoder's rotation is a rotation, one place at a time. */
  lemma RotationRotates(value: Word, amount: nat, status: Word)
    requires 0 < amount < 32
    ensures ShiftedValue(ROR, amount, value, status) == Rotated(value, amount)
  {
    RotatedParts(value, amount);
    ShlKeepsLow(value, amount);
    OnesWide();
    ShrSmall(value, amount, 32 - amount);
    OrIsSum(Shr(value, amount), Low(value, amount), 32 - amount);
  }

  lemma RotateThroughCarry(value: Word, status: Word)
    ensures ShiftedValue(ROR, 0, value, status) == ArchitectureShift(ROR, 0, value, status)
  {
    assert And(status, 0x2000_0000) != 0 <==> Carry(status) by {
      hide And;
      hide Up;
      UpWide(1);
      AndBit(status, 29);
    }
    assert Shr(value, 1) == value / 2;
    UpWide(1);
    OnesWide();
    hide Up;
    hide Ones;
    hide Or;
    hide And;
    if Carry(status) {
      OrIsSum(value / 2, 1, 31);
    } else {
      UpZero(31);
      OrIsSum(value / 2, 0, 31);
    }
  }

  /** For every shift by an immediate the decoder computes what the processor does, except a right shift
      written with the amount zero, which means 32: there it leaves the value as it is. */
  lemma ImmediateShiftIff(shift: Shift, amount: nat, value: Word, status: Word)
    requires amount < 32
    ensures ShiftedValue(shift, amount, value, status) == ArchitectureShift(shift, amount, value, status) <==>
      !(amount == 0 && ((shift.LSR? && value != 0) || (shift.ASR? && 0 < value < WORD - 1)))
  {
    match shift
    case LSL => UpMultiplies(value, amount);
    case LSR =>
      ShrDivides(value, amount);
      ByThirtyTwo(value);
    case ASR =>
      ArithmeticShiftFloors(value, amount, status);
      ByThirtyTwo(Signed(value));
      WholeShift(value);
    case ROR =>
      if amount == 0 {
        RotateThroughCarry(value, status);
      } else {
        RotationRotates(value, amount, status);
      }
  }

  /** A word, read with or without its sign, shifted right by its whole width. */
  lemma ByThirtyTwo(x: int)
    ensures -WORD < x < WORD ==> x / Pow2(32) == if x >= 0 then 0 else -1
  {
    if -WORD < x < WORD {
      Pow2Word();
    }
  }

  lemma WholeShift(value: Word)
    ensures Unsigned(Signed(value) / Pow2(0)) == value
    ensures Unsigned(-1) == WORD - 1 && Unsigned(0) == 0
  {
    assert Pow2(0) == 1;
  }

  // ---------------------------------------------------------------- arithmetic with carry

  datatype CarryOp = ADC | SBC | RSC

  /** The decoder's result: the condition operator applies to the whole sum. */
  function CarryResult(op: CarryOp, a: Word, b: Word, status: Word): nat {
    var carry := And(status, 0x2000_0000);
    match op
    case ADC => if (a + b + carry) % WORD != 0 then 1 else 0
    case SBC => if (a - b - carry) % WORD != 0 then 0 else 1
    case RSC => if (b - a - carry) % WORD != 0 then 0 else 1
  }

  /** Sections A8.6.1 to A8.6.3, A8.6.117 to A8.6.119 and A8.6.151 to A8.6.153. */
  function ArchitectureCarry(op: CarryOp, a: Word, b: Word, status: Word): nat {
    var carry := if Carry(status) then 1 else 0;
    match op
    case ADC => (a + b + carry) % WORD
    case SBC => (a - b - (1 - carry)) % WORD
    case RSC => (b - a - (1 - carry)) % WORD
  }

  /** The result without the carry decides whether the decoder's answer, always zero or one, is right. */
  lemma CarryResultIff(op: CarryOp, a: Word, b: Word, status: Word)
    ensures var plain := match op case ADC => (a + b) % WORD case SBC => (a - b) % WORD case RSC => (b - a) % WORD;
      CarryResult(op, a, b, status) == ArchitectureCarry(op, a, b, status) <==>
        (plain == 0 && (op.ADC? || Carry(status))) || (plain == 1 && !Carry(status))
  {
    assert And(status, 0x2000_0000) == if Carry(status) then 0x2000_0000 else 0 by {
      hide And;
      hide Up;
      UpWide(1);
      AndBit(status, 29);
    }
    var sum := match op case ADC => a + b case SBC => a - b case RSC => b - a;
    ShiftedBy(sum, 1);
    ShiftedBy(sum, -1);
    ShiftedBy(sum, 0x2000_0000);
    ShiftedBy(sum, -0x2000_0000);
  }

  lemma ShiftedBy(a: int, d: int)
    requires -WORD < d < WORD
    ensures (a + d) % WORD ==
      if a % WORD + d < 0 then a % WORD + d + WORD else if a % WORD + d >= WORD then a % WORD + d - WORD else a % WORD + d
  {
  }
}
