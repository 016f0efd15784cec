/** Words as natural numbers: the bitwise operators of the decoder, bit by bit, and the arithmetic they do. */
module Words {

  const WORD := 0x1_0000_0000

  // ---------------------------------------------------------------- operators

  function And(a: nat, b: nat): nat
    decreases a
  {
    if a == 0 || b == 0 then 0
    else (if a % 2 == 1 && b % 2 == 1 then 1 else 0) + 2 * And(a / 2, b / 2)
  }

  function Or(a: nat, b: nat): nat
    decreases a
  {
    if a == 0 then b
    else if b == 0 then a
    else (if a % 2 == 1 || b % 2 == 1 then 1 else 0) + 2 * Or(a / 2, b / 2)
  }

  function Not(x: nat): nat
    requires x < WORD
  {
    WORD - 1 - x
  }

  /** Shifts right. */
  function Shr(x: nat, s: nat): (r: nat)
    ensures r <= x
    decreases s
  {
    if s == 0 then x else Shr(x / 2, s - 1)
  }

  /** Shifts left, without a word's limit. */
  function Up(x: nat, s: nat): (r: nat)
    ensures r >= x
    decreases s
  {
    if s == 0 then x else 2 * Up(x, s - 1)
  }

  /** The k low bits. */
  function Low(x: nat, k: nat): (r: nat)
    ensures r <= x
    decreases k
  {
    if k == 0 then 0 else x % 2 + 2 * Low(x / 2, k - 1)
  }

  /** Shifts left within a word. */
  function Shl(x: nat, s: nat): nat {
    Up(x, s) % WORD
  }

  /** k bits, all set. */
  function Ones(k: nat): nat
    decreases k
  {
    if k == 0 then 0 else 1 + 2 * Ones(k - 1)
  }

  /** The word read as a signed number. */
  function Signed(x: nat): int
    requires x < WORD
  {
    if x < 0x8000_0000 then x else x - WORD
  }

  /** The number of bits set. */
  function BitsSet(x: nat): nat
    decreases x
  {
    if x == 0 then 0 else x % 2 + BitsSet(x / 2)
  }

  /** A power of two. */
  function Pow2(k: nat): (p: nat)
    ensures p > 0
    decreases k
  {
    if k == 0 then 1 else 2 * Pow2(k - 1)
  }

  // ---------------------------------------------------------------- halves

  lemma AndHalves(a: nat, b: nat)
    ensures And(a, b) == (if a % 2 == 1 && b % 2 == 1 then 1 else 0) + 2 * And(a / 2, b / 2)
  {
  }

  lemma OrHalves(a: nat, b: nat)
    ensures Or(a, b) == (if a % 2 == 1 || b % 2 == 1 then 1 else 0) + 2 * Or(a / 2, b / 2)
  {
  }

  /** A word is its low bits and the rest. */
  lemma {:induction false} LowAndRest(x: nat, k: nat)
    ensures x == Low(x, k) + Up(Shr(x, k), k)
    decreases k
  {
    if k == 0 {
    } else {
      LowAndRest(x / 2, k - 1);
    }
  }

  lemma {:induction false} LowSmall(x: nat, k: nat)
    ensures Low(x, k) <= Ones(k)
    ensures x <= Ones(k) ==> Low(x, k) == x && Shr(x, k) == 0
    decreases k
  {
    if k == 0 {
    } else {
      LowSmall(x / 2, k - 1);
    }
  }

  lemma {:induction false} UpAdd(x: nat, y: nat, s: nat)
    ensures Up(x + y, s) == Up(x, s) + Up(y, s)
    decreases s
  {
    if s == 0 {
    } else {
      UpAdd(x, y, s - 1);
    }
  }

  lemma {:induction false} UpUp(x: nat, s: nat, t: nat)
    ensures Up(Up(x, s), t) == Up(x, s + t)
    decreases t
  {
    if t == 0 {
    } else {
      UpUp(x, s, t - 1);
    }
  }

  lemma {:induction false} ShrLast(x: nat, s: nat)
    ensures Shr(x, s + 1) == Shr(x, s) / 2
    decreases s
  {
    if s == 0 {
    } else {
      ShrLast(x / 2, s - 1);
    }
  }

  lemma {:induction false} LowLast(x: nat, k: nat)
    ensures Low(x, k + 1) == Low(x, k) + Up(Shr(x, k) % 2, k)
    decreases k
  {
    if k == 0 {
    } else {
      LowLast(x / 2, k - 1);
    }
  }

  // ---------------------------------------------------------------- masks

  /** A mask of the low bits keeps the low bits. */
  lemma {:induction false} AndLow(x: nat, k: nat)
    ensures And(x, Ones(k)) == Low(x, k)
    decreases k
  {
    AndHalves(x, Ones(k));
    if k == 0 {
    } else {
      AndLow(x / 2, k - 1);
    }
  }

  lemma AndFieldStep(x: nat, k: nat, w: nat)
    ensures k > 0 ==> And(x, Up(Ones(w), k)) == 2 * And(x / 2, Up(Ones(w), k - 1))
    ensures k > 0 ==> Up(Low(Shr(x, k), w), k) == 2 * Up(Low(Shr(x / 2, k - 1), w), k - 1)
  {
    hide Low;
    hide Ones;
    if k > 0 {
      AndHalves(x, Up(Ones(w), k));
    }
  }

  /** A mask of w bits from bit k on keeps the field. */
  lemma {:induction false} AndField(x: nat, k: nat, w: nat)
    ensures And(x, Up(Ones(w), k)) == Up(Low(Shr(x, k), w), k)
    decreases k
  {
    if k == 0 {
      AndLow(x, w);
    } else {
      AndFieldStep(x, k, w);
      AndField(x / 2, k - 1, w);
      hide And;
      hide Up;
      hide Low;
      hide Shr;
      hide Ones;
    }
  }

  lemma {:induction false} ShrOfUp(x: nat, k: nat)
    ensures Shr(Up(x, k), k) == x
    decreases k
  {
    if k == 0 {
    } else {
      ShrOfUp(x, k - 1);
    }
  }

  /** A field masked out and shifted down. */
  lemma Field(x: nat, k: nat, w: nat)
    ensures Shr(And(x, Up(Ones(w), k)), k) == Low(Shr(x, k), w)
  {
    AndField(x, k, w);
    ShrOfUp(Low(Shr(x, k), w), k);
  }

  lemma {:induction false} UpOne(k: nat)
    ensures Up(1, k) == Ones(k) + 1
    decreases k
  {
    if k == 0 {
    } else {
      UpOne(k - 1);
    }
  }

  /** A single bit, in place. */
  lemma AndBit(x: nat, k: nat)
    ensures And(x, Up(1, k)) == if Shr(x, k) % 2 == 1 then Up(1, k) else 0
  {
    AndField(x, k, 1);
    assert Ones(1) == 1;
    assert Low(Shr(x, k), 1) == Shr(x, k) % 2;
    UpZero(k);
  }

  lemma {:induction false} UpZero(k: nat)
    ensures Up(0, k) == 0
    decreases k
  {
    if k == 0 {
    } else {
      UpZero(k - 1);
    }
  }

  /** Or, split at a bit below which the second operand is empty. */
  lemma {:induction false} OrSplit(a: nat, b: nat, k: nat)
    ensures Or(a, Up(b, k)) == Low(a, k) + Up(Or(Shr(a, k), b), k)
    decreases k
  {
    if k == 0 {
    } else {
      OrHalves(a, Up(b, k));
      OrSplit(a / 2, b, k - 1);
    }
  }

  /** Or of words without a common bit is their sum. */
  lemma OrIsSum(a: nat, b: nat, k: nat)
    ensures a <= Ones(k) ==> Or(a, Up(b, k)) == a + Up(b, k)
  {
    if a <= Ones(k) {
      OrSplit(a, b, k);
      LowSmall(a, k);
      assert Or(0, b) == b;
    }
  }

  // ---------------------------------------------------------------- counting bits

  lemma {:induction false} AndSelf(x: nat)
    ensures And(x, x) == x
    decreases x
  {
    if x == 0 {
    } else {
      AndSelf(x / 2);
    }
  }

  lemma BitsSetDouble(x: nat, bit: nat)
    ensures bit < 2 ==> BitsSet(2 * x + bit) == BitsSet(x) + bit
  {
    if bit < 2 {
      assert (2 * x + bit) / 2 == x && (2 * x + bit) % 2 == bit;
    }
  }

  /** Masking a word with its predecessor clears exactly one bit. */
  lemma {:induction false} ClearsOneBit(x: nat)
    requires x > 0
    ensures And(x, x - 1) < x && BitsSet(And(x, x - 1)) == BitsSet(x) - 1
    decreases x
  {
    AndHalves(x, x - 1);
    if x % 2 == 1 {
      assert (x - 1) / 2 == x / 2;
      AndSelf(x / 2);
      BitsSetDouble(x / 2, 0);
    } else {
      assert (x - 1) / 2 == x / 2 - 1;
      ClearsOneBit(x / 2);
      BitsSetDouble(And(x / 2, x / 2 - 1), 0);
    }
  }

  lemma BitsSetStep(x: nat, k: nat)
    ensures k > 0 ==> BitsSet(Low(x, k)) == BitsSet(Low(x / 2, k - 1)) + x % 2
    ensures k > 0 ==> BitsSet(x) == BitsSet(x / 2) + x % 2
    ensures k > 0 ==> Shr(x, k) == Shr(x / 2, k - 1)
  {
    if k > 0 {
      BitsSetDouble(Low(x / 2, k - 1), x % 2);
      BitsSetDouble(x / 2, x % 2);
    }
  }

  lemma {:induction false} BitsSetSplit(x: nat, k: nat)
    ensures BitsSet(x) == BitsSet(Low(x, k)) + BitsSet(Shr(x, k))
    decreases k
  {
    if k == 0 {
    } else {
      BitsSetStep(x, k);
      BitsSetSplit(x / 2, k - 1);
      hide BitsSet;
      hide Low;
      hide Shr;
    }
  }

  /** Counts by clearing the lowest set bit until none is left. */
  method Bitcount(val: nat) returns (nbits: nat)
    ensures nbits == BitsSet(val)
  {
    var left := val;
    nbits := 0;
    while left != 0
      invariant nbits + BitsSet(left) == BitsSet(val)
      decreases left
    {
      ClearsOneBit(left);
      left := And(left, left - 1);
      nbits := nbits + 1;
    }
  }

  // ---------------------------------------------------------------- division

  lemma {:induction false} Grows(k: int, d: int)
    ensures k > 0 && d > 0 ==> k * d >= d
    decreases k
  {
    if k > 0 && d > 0 {
      if k <= 1 {
      } else {
        Grows(k - 1, d);
        assert k * d == (k - 1) * d + d;
      }
    }
  }

  lemma GrowsEitherWay(k: int, d: int)
    ensures d > 0 ==> k > 0 ==> k * d >= d
    ensures d > 0 ==> k < 0 ==> k * d <= -d
  {
    if d > 0 {
      if k > 0 {
        Grows(k, d);
      } else if k < 0 {
        Grows(-k, d);
        assert (-k) * d == -(k * d);
      }
    }
  }

  /** A quotient and remainder in range are the quotient and the remainder. */
  lemma Quotient(x: int, d: int, q: int, r: int)
    ensures d > 0 && x == q * d + r && 0 <= r < d ==> x / d == q && x % d == r
  {
    if d > 0 && x == q * d + r && 0 <= r < d {
      var k := x / d - q;
      assert x == (x / d) * d + x % d;
      assert k * d == (x / d) * d - q * d;
      GrowsEitherWay(k, d);
    }
  }

  /** Dividing by two and then by p is dividing by twice p. */
  lemma HalveFirst(x: int, p: nat)
    ensures p > 0 ==> x / (2 * p) == (x / 2) / p
  {
    if p > 0 {
      var h := x / 2;
      var q, r := h / p, h % p;
      assert h == q * p + r;
      assert q * (2 * p) == 2 * (q * p);
      Quotient(x, 2 * p, q, x % 2 + 2 * r);
    }
  }

  /** Shifting right divides by a power of two. */
  lemma {:induction false} ShrDivides(x: nat, s: nat)
    ensures Shr(x, s) == x / Pow2(s)
    decreases s
  {
    if s == 0 {
    } else {
      ShrDivides(x / 2, s - 1);
      HalveFirst(x, Pow2(s - 1));
    }
  }

  lemma {:induction false} UpMultiplies(x: nat, s: nat)
    ensures Up(x, s) == x * Pow2(s)
    decreases s
  {
    if s == 0 {
    } else {
      UpMultiplies(x, s - 1);
      assert 2 * (x * Pow2(s - 1)) == x * (2 * Pow2(s - 1));
    }
  }

  // ---------------------------------------------------------------- widths in use

  lemma UpEight(x: nat)
    ensures Up(x, 8) == 0x100 * x
  {
    assert Up(x, 2) == 4 * x;
    UpUp(x, 2, 2);
    assert Up(4 * x, 2) == 16 * x;
    UpUp(x, 4, 4);
    UpUp(16 * x, 2, 2);
    assert Up(16 * x, 2) == 64 * x;
    assert Up(64 * x, 2) == 256 * x;
  }

  /** Shifts by the widths the decoder uses, as multiplications. */
  lemma UpWide(x: nat)
    ensures Up(x, 8) == 0x100 * x && Up(x, 16) == 0x1_0000 * x
    ensures Up(x, 15) == 0x8000 * x && Up(x, 11) == 0x800 * x
    ensures Up(x, 23) == 0x0080_0000 * x && Up(x, 24) == 0x0100_0000 * x
    ensures Up(x, 29) == 0x2000_0000 * x && Up(x, 31) == 0x8000_0000 * x && Up(x, 32) == WORD * x
  {
    hide Up;
    UpEight(x);
    UpEight(0x100 * x);
    UpUp(x, 8, 8);
    UpEight(0x1_0000 * x);
    UpUp(x, 16, 8);
    UpEight(0x0100_0000 * x);
    UpUp(x, 24, 8);
    UpUp(x, 8, 3);
    UpThree(0x100 * x);
    UpUp(x, 29, 3);
    UpThree(Up(x, 29));
    UpNext(x, 15);
    UpNext(x, 23);
    UpNext(x, 31);
  }

  lemma UpThree(x: nat)
    ensures Up(x, 3) == 8 * x
  {
    assert Up(x, 1) == 2 * x;
    assert Up(x, 2) == 4 * x;
  }

  lemma UpNext(x: nat, s: nat)
    ensures Up(x, s + 1) == 2 * Up(x, s)
  {
  }

  lemma OnesWide()
    ensures Ones(8) == 0xFF && Ones(11) == 0x7FF && Ones(15) == 0x7FFF && Ones(16) == 0xFFFF
    ensures Ones(24) == 0x00FF_FFFF && Ones(31) == 0x7FFF_FFFF && Ones(32) == 0xFFFF_FFFF
  {
    UpWide(1);
    UpOne(8);
    UpOne(11);
    UpOne(15);
    UpOne(16);
    UpOne(24);
    UpOne(31);
    UpOne(32);
  }

  lemma Pow2Word()
    ensures Pow2(32) == WORD
  {
    UpWide(1);
    UpMultiplies(1, 32);
  }

  /** A word's upper bits, when only one of them can be set. */
  lemma TopBit(x: nat, k: nat)
    ensures x <= Ones(k + 1) ==>
      Shr(x, k) <= 1 && x == Low(x, k) + (if Shr(x, k) == 1 then Up(1, k) else 0) && Low(x, k) <= Ones(k)
  {
    if x <= Ones(k + 1) {
      LowSmall(x, k + 1);
      LowSmall(x, k);
      ShrLast(x, k);
      LowAndRest(x, k);
      UpZero(k);
    }
  }
}
