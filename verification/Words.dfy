/** Machine words as bounded integers, and the helpers of util.h stated by
    multiplication, division and remainder. */
module Words {

  type Word = w: int | 0 <= w < 0x1_0000_0000
  type Byte = b: int | 0 <= b < 0x100
  type Flag = f: int | 0 <= f <= 1

  /** The value an unsigned 32-bit variable keeps of an integer. */
  function Trunc(x: int): Word {
    x % 0x1_0000_0000
  }

  /** The two's complement reading of a word. */
  function Signed(w: Word): (d: int)
    ensures -0x8000_0000 <= d < 0x8000_0000
  {
    if w < 0x8000_0000 then w else w - 0x1_0000_0000
  }

  function Pow2(n: nat): (p: nat)
    ensures p > 0
  {
    if n == 0 then 1 else 2 * Pow2(n - 1)
  }

  /** get_bit: bit i of x. */
  function Bit(x: nat, i: nat): Flag {
    x / Pow2(i) % 2
  }

  function Bit31(w: Word): Flag {
    w / 0x8000_0000
  }

  function ToFlag(b: bool): Flag {
    if b then 1 else 0
  }

  /** Bitwise operators, bit by bit from the least significant end. */
  function And(a: nat, b: nat): (r: nat)
    ensures r <= a && r <= b
    decreases a
  {
    if a == 0 then 0
    else (if a % 2 == 1 && b % 2 == 1 then 1 else 0) + 2 * And(a / 2, b / 2)
  }

  function Or(a: nat, b: nat): nat
    decreases a
  {
    if a == 0 then b
    else (if a % 2 == 1 || b % 2 == 1 then 1 else 0) + 2 * Or(a / 2, b / 2)
  }

  function Xor(a: nat, b: nat): nat
    decreases a
  {
    if a == 0 then b
    else (if a % 2 != b % 2 then 1 else 0) + 2 * Xor(a / 2, b / 2)
  }

  lemma {:induction false} OrXorBound(a: nat, b: nat, n: nat)
    requires a < Pow2(n) && b < Pow2(n)
    ensures Or(a, b) < Pow2(n) && Xor(a, b) < Pow2(n)
    decreases n
  {
    if n > 0 && a > 0 {
      OrXorBound(a / 2, b / 2, n - 1);
    }
  }

  function OrWord(a: Word, b: Word): Word {
    Pow2Of32();
    OrXorBound(a, b, 32);
    Or(a, b)
  }

  function XorWord(a: Word, b: Word): Word {
    Pow2Of32();
    OrXorBound(a, b, 32);
    Xor(a, b)
  }

  /** ~w */
  function NotWord(w: Word): Word {
    0xFFFF_FFFF - w
  }

  /** set_bit and clr_bit. */
  function SetBit(x: Word, i: nat): (r: Word)
    requires i < 32
  {
    BitFits(x, i);
    if Bit(x, i) == 1 then x else x + Pow2(i)
  }

  function ClrBit(x: Word, i: nat): (r: Word)
    requires i < 32
  {
    BitFits(x, i);
    if Bit(x, i) == 0 then x else x - Pow2(i)
  }

  /** reverse_2 and reverse_4. */
  function Reverse2(x: nat): (r: nat)
    ensures r < 0x1_0000
  {
    x % 0x100 * 0x100 + x / 0x100 % 0x100
  }

  function Reverse4(x: Word): Word {
    x % 0x100 * 0x100_0000 + x / 0x100 % 0x100 * 0x1_0000
    + x / 0x1_0000 % 0x100 * 0x100 + x / 0x100_0000
  }

  /** The four digits of a word in base 256, most significant first. */
  lemma FourDigits(x: int, b3: Byte, b2: Byte, b1: Byte, b0: Byte)
    requires x == b3 * 0x100_0000 + b2 * 0x1_0000 + b1 * 0x100 + b0
    ensures x % 0x100 == b0 && x / 0x100 % 0x100 == b1
    ensures x / 0x1_0000 % 0x100 == b2 && x / 0x100_0000 == b3
  {
    var y := b3 * 0x1_0000 + b2 * 0x100 + b1;
    assert x == y * 0x100 + b0;
    var z := b3 * 0x100 + b2;
    assert y == z * 0x100 + b1;
    assert x / 0x100 == y && y / 0x100 == z && x / 0x1_0000 == y / 0x100;
    assert x / 0x100_0000 == z / 0x100;
  }

  lemma Reverse2Digits(b1: Byte, b0: Byte)
    ensures Reverse2(b1 * 0x100 + b0) == b0 * 0x100 + b1
  {
    assert (b1 * 0x100 + b0) % 0x100 == b0;
    assert (b1 * 0x100 + b0) / 0x100 == b1;
  }

  lemma DigitsOfWord(x: Word) returns (b3: Byte, b2: Byte, b1: Byte, b0: Byte)
    ensures x == b3 * 0x100_0000 + b2 * 0x1_0000 + b1 * 0x100 + b0
    ensures x % 0x100 == b0 && x / 0x100 % 0x100 == b1
    ensures x / 0x1_0000 % 0x100 == b2 && x / 0x100_0000 == b3
  {
    b3, b2, b1, b0 := x / 0x100_0000, x / 0x1_0000 % 0x100, x / 0x100 % 0x100, x % 0x100;
    assert x / 0x1_0000 == x / 0x100 / 0x100;
    assert x / 0x100_0000 == x / 0x1_0000 / 0x100;
  }

  lemma Reverse4Digits(x: Word) returns (b3: Byte, b2: Byte, b1: Byte, b0: Byte)
    ensures x == b3 * 0x100_0000 + b2 * 0x1_0000 + b1 * 0x100 + b0
    ensures Reverse4(x) == b0 * 0x100_0000 + b1 * 0x1_0000 + b2 * 0x100 + b3
  {
    b3, b2, b1, b0 := DigitsOfWord(x);
  }

  // ---------- powers of two ----------

  lemma {:induction false} Pow2Add(m: nat, n: nat)
    ensures Pow2(m + n) == Pow2(m) * Pow2(n)
    decreases m
  {
    if m > 0 {
      Pow2Add(m - 1, n);
      assert Pow2(m + n) == 2 * Pow2(m - 1 + n);
      assert 2 * (Pow2(m - 1) * Pow2(n)) == (2 * Pow2(m - 1)) * Pow2(n);
    }
  }

  lemma Pow2Of32()
    ensures Pow2(8) == 0x100 && Pow2(16) == 0x1_0000
    ensures Pow2(31) == 0x8000_0000 && Pow2(32) == 0x1_0000_0000
  {
    assert Pow2(4) == 16;
    Pow2Add(4, 4);
    Pow2Add(8, 8);
    Pow2Add(16, 16);
  }

  lemma {:induction false} Pow2Monotone(m: nat, n: nat)
    requires m <= n
    ensures Pow2(m) <= Pow2(n)
    decreases n
  {
    if m < n {
      Pow2Monotone(m, n - 1);
    }
  }

  /** 2^32 split at n. */
  lemma Pow2Split(n: nat)
    requires n <= 32
    ensures Pow2(n) * Pow2(32 - n) == 0x1_0000_0000
    ensures Pow2(32 - n) * Pow2(n) == 0x1_0000_0000
  {
    Pow2Add(n, 32 - n);
    Pow2Of32();
  }

  lemma TruncShift(x: int, q: int)
    ensures Trunc(x + q * 0x1_0000_0000) == Trunc(x)
  {
    DivModUnique(x + q * 0x1_0000_0000, 0x1_0000_0000, x / 0x1_0000_0000 + q, Trunc(x));
  }

  /** Wrapping around may be put off to the end of a sum. */
  lemma TruncSum(x: int, y: int)
    ensures Trunc(Trunc(x) + y) == Trunc(x + y) == Trunc(x + Trunc(y))
  {
    TruncShift(Trunc(x) + y, x / 0x1_0000_0000);
    TruncShift(x + Trunc(y), y / 0x1_0000_0000);
  }

  /** Numbers within a word are not wrapped. */
  lemma SmallTrunc(x: nat)
    requires x < 0x1_0000_0000
    ensures Trunc(x) == x
  {
  }

  // ---------- division and remainder by products ----------

  lemma MulAtLeast(k: int, d: int)
    requires d > 0
    ensures k >= 0 ==> k * d >= 0
    ensures k >= 1 ==> k * d >= d
  {
  }

  lemma DivisionBounds(x: nat, d: nat)
    requires d > 0
    ensures 0 <= x / d <= x && 0 <= x / d * d <= x
    ensures x == x / d * d + x % d
  {
    var q, r := x / d, x % d;
    assert x == q * d + r;
    MulAtLeast(q, d);
    MulAtLeast(-q, d);
    assert -q * d == -(q * d);
    assert q * (d - 1) == q * d - q;
    if d > 1 {
      MulAtLeast(q, d - 1);
    }
  }

  /** The quotient and remainder are determined by the division identity. */
  lemma DivModUnique(x: int, d: int, q: int, r: int)
    requires d > 0 && 0 <= r < d && x == q * d + r
    ensures x / d == q && x % d == r
  {
    var q', r' := x / d, x % d;
    assert x == q' * d + r';
    assert (q - q') * d == r' - r;
    MulAtLeast(q - q', d);
    MulAtLeast(q' - q, d);
    assert (q' - q) * d == -((q - q') * d);
  }

  /** Dividing twice divides by the product, and the two remainders add up. */
  lemma DivDiv(x: int, a: int, b: int)
    requires a > 0 && b > 0
    ensures a * b > 0
    ensures x / a / b == x / (a * b)
    ensures x % (a * b) == x % a + x / a % b * a
  {
    var q, r := x / a, x % a;
    var q2, r2 := q / b, q % b;
    assert x == q * a + r && q == q2 * b + r2;
    Regroup(q2, b, r2, a);
    DigitBelow(r2, b, r, a);
    DivModUnique(x, a * b, q2, r2 * a + r);
  }

  lemma Regroup(q: int, b: int, r: int, a: int)
    ensures (q * b + r) * a == q * (a * b) + r * a
  {
    assert (q * b) * a == q * (a * b);
  }

  lemma DigitBelow(r2: int, b: int, r: int, a: int)
    requires 0 <= r2 < b && 0 <= r < a
    ensures 0 <= r2 * a + r < a * b
  {
    MulAtLeast(r2, a);
    MulAtLeast(b - 1 - r2, a);
    assert (b - 1 - r2) * a == a * b - a - r2 * a;
  }

  /** A factor common to dividend and modulus comes out. */
  lemma MulMod(x: int, a: int, b: int)
    requires a > 0 && b > 0
    ensures a * b > 0
    ensures x * a % (a * b) == x % b * a
    ensures x * a / (a * b) == x / b
  {
    var q, r := x / b, x % b;
    assert x == q * b + r;
    Regroup(q, b, r, a);
    DigitBelow(r, b, 0, a);
    DivModUnique(x * a, a * b, q, r * a);
  }

  /** The low five bits of a word are those of its low 28 bits. */
  lemma LowFive(x: Word)
    ensures x % 32 == x % 0x1000_0000 % 32
  {
    var r := x % 0x1000_0000;
    DivModUnique(x, 32, x / 0x1000_0000 * 0x80_0000 + r / 32, r % 32);
  }

  /** The weight bit i contributes to x. */
  function BitWeight(x: nat, i: nat): nat {
    if Bit(x, i) == 1 then Pow2(i) else 0
  }

  /** The bit above the low part decides the doubled remainder. */
  lemma BitDecomposition(x: nat, i: nat)
    ensures x % Pow2(i + 1) == x % Pow2(i) + BitWeight(x, i)
    ensures x == x / Pow2(i + 1) * Pow2(i + 1) + BitWeight(x, i) + x % Pow2(i)
  {
    DivDiv(x, Pow2(i), 2);
    assert Pow2(i) * 2 == Pow2(i + 1);
    FlagTimes(Bit(x, i), Pow2(i));
  }

  /** A number below p * k is below it in whole multiples of p. */
  lemma QuotientBelow(x: nat, p: nat, k: nat)
    requires p > 0 && x < p * k
    ensures x / p < k
    ensures x / p * p + p <= p * k
  {
    var q := x / p;
    assert x == q * p + x % p;
    MulAtLeast(q - k + 1, p);
    assert (q - k) * p == q * p - p * k;
    MulAtLeast(q - k, p);
    MulAtLeast(k - q, p);
  }

  /** A word is below 2^32 in whole multiples of 2^i. */
  lemma QuotientBound(x: Word, i: nat)
    requires i <= 32
    ensures x / Pow2(i) < Pow2(32 - i)
    ensures x / Pow2(i) * Pow2(i) + Pow2(i) <= 0x1_0000_0000
  {
    Pow2Split(i);
    QuotientBelow(x, Pow2(i), Pow2(32 - i));
  }

  lemma BitSplit(x: Word, i: nat) returns (high: nat, low: nat)
    requires i < 32
    ensures x == high + BitWeight(x, i) + low
    ensures low < Pow2(i) && high + 2 * Pow2(i) <= 0x1_0000_0000
  {
    BitDecomposition(x, i);
    QuotientBound(x, i + 1);
    DivisionBounds(x, Pow2(i + 1));
    high, low := x / Pow2(i + 1) * Pow2(i + 1), x % Pow2(i);
  }

  lemma BitFits(x: Word, i: nat)
    requires i < 32
    ensures Bit(x, i) == 0 ==> x + Pow2(i) < 0x1_0000_0000
    ensures Bit(x, i) == 1 ==> x - Pow2(i) >= 0
  {
    var high, low := BitSplit(x, i);
  }

  lemma FlagTimes(b: Flag, p: int)
    ensures b * p == if b == 0 then 0 else p
  {
  }

  // ---------- bitwise operators ----------

  /** Or of a number below 2^k with a multiple of 2^k is their sum. */
  lemma {:induction false} OrDisjoint(low: nat, k: nat, high: nat)
    requires low < Pow2(k)
    ensures high * Pow2(k) >= 0
    ensures Or(low, high * Pow2(k)) == low + high * Pow2(k)
    decreases k
  {
    var h := high * Pow2(k);
    assert h >= 0;
    if low > 0 {
      assert k > 0;
      var h' := high * Pow2(k - 1);
      assert h == 2 * h';
      assert h' >= 0;
      OrDisjoint(low / 2, k - 1, high);
    }
  }

  lemma {:induction false} OrCommutes(a: nat, b: nat)
    ensures Or(a, b) == Or(b, a)
    decreases a
  {
    if a > 0 && b > 0 {
      OrCommutes(a / 2, b / 2);
    } else if a > 0 {
      OrZero(a);
    } else {
      OrZero(b);
    }
  }

  lemma {:induction false} OrZero(a: nat)
    ensures Or(a, 0) == a
    decreases a
  {
    if a > 0 {
      OrZero(a / 2);
    }
  }

  lemma {:induction false} OrSelf(a: nat)
    ensures Or(a, a) == a
    decreases a
  {
    if a > 0 {
      OrSelf(a / 2);
    }
  }

  /** All ones absorb. */
  lemma {:induction false} OrOnes(a: nat, n: nat)
    requires a < Pow2(n)
    ensures Or(a, Pow2(n) - 1) == Pow2(n) - 1
    decreases n
  {
    if a > 0 {
      var p := Pow2(n - 1);
      OrOnes(a / 2, n - 1);
      OrOdd(a, p - 1);
    }
  }

  lemma OrOdd(a: nat, b: nat)
    requires a > 0
    ensures Or(a, 2 * b + 1) == 1 + 2 * Or(a / 2, b)
  {
  }

  /** A mask whose low n bits are all set keeps a number below 2^n. */
  lemma {:induction false} AndLowOnes(a: nat, n: nat, k: nat)
    requires a < Pow2(n)
    ensures k * Pow2(n) + Pow2(n) - 1 >= 0
    ensures And(a, k * Pow2(n) + Pow2(n) - 1) == a
    decreases n
  {
    MulAtLeast(k, Pow2(n));
    if a > 0 {
      var p := Pow2(n - 1);
      AndLowOnes(a / 2, n - 1, k);
      assert Pow2(n) == 2 * p;
      hide Pow2, And;
      Doubled(k, p);
      AndOdd(a, k * p + p - 1);
    }
  }

  lemma Doubled(x: int, p: int)
    ensures x * (2 * p) == 2 * (x * p)
  {
  }

  lemma AndOdd(a: nat, b: nat)
    ensures And(a, 2 * b + 1) == a % 2 + 2 * And(a / 2, b)
  {
  }

  lemma AndOne(a: nat)
    ensures And(a, 1) == a % 2
  {
    if a > 0 {
      AndZero(a / 2);
    }
  }

  lemma AndZero(a: nat)
    ensures And(a, 0) == 0
  {
  }

  /** Testing one bit against a mask, as the population count does. */
  lemma {:induction false} AndMask(i: nat, n: nat)
    ensures And(Pow2(i), n) == Bit(n, i) * Pow2(i)
    decreases i
  {
    if i > 0 {
      AndMask(i - 1, n / 2);
      BitOfHalf(n, i - 1);
      AndDoubled(Pow2(i - 1), n);
      FlagTimes(Bit(n, i), Pow2(i - 1));
      FlagTimes(Bit(n, i), Pow2(i));
    } else {
      assert And(1, n) == n % 2;
    }
    hide And, Bit;
  }

  lemma AndDoubled(a: nat, n: nat)
    ensures And(2 * a, n) == 2 * And(a, n / 2)
  {
  }

  lemma BitOfHalf(n: nat, i: nat)
    ensures Bit(n, i + 1) == Bit(n / 2, i)
  {
    DivDiv(n, 2, Pow2(i));
  }

  // ---------- the operators by their bits ----------

  lemma BitZero(n: nat)
    ensures Bit(n, 0) == n % 2
  {
    assert Pow2(0) == 1;
  }

  lemma BitOfZero(i: nat)
    ensures Bit(0, i) == 0
  {
    DivModUnique(0, Pow2(i), 0, 0);
  }

  /** Bit i of a conjunction, a disjunction and a difference of bits. */
  lemma {:induction false} AndBit(a: nat, b: nat, i: nat)
    ensures Bit(And(a, b), i) == if Bit(a, i) == 1 && Bit(b, i) == 1 then 1 else 0
    decreases i
  {
    hide Bit, And;
    AndParts(a, b);
    BitStep(a, b, And(a, b), i);
    if i > 0 {
      AndBit(a / 2, b / 2, i - 1);
    }
  }

  lemma LastBit(bit: Flag, rest: nat)
    ensures (bit + 2 * rest) % 2 == bit && (bit + 2 * rest) / 2 == rest
  {
  }

  lemma AndParts(a: nat, b: nat)
    ensures And(a, b) % 2 == if a % 2 == 1 && b % 2 == 1 then 1 else 0
    ensures And(a, b) / 2 == And(a / 2, b / 2)
  {
    LastBit(if a % 2 == 1 && b % 2 == 1 then 1 else 0, And(a / 2, b / 2));
  }

  lemma {:induction false} OrBit(a: nat, b: nat, i: nat)
    ensures Bit(Or(a, b), i) == if Bit(a, i) == 1 || Bit(b, i) == 1 then 1 else 0
    decreases i
  {
    hide Bit, Or;
    OrParts(a, b);
    BitStep(a, b, Or(a, b), i);
    if i > 0 {
      OrBit(a / 2, b / 2, i - 1);
    }
  }

  lemma OrParts(a: nat, b: nat)
    ensures Or(a, b) % 2 == if a % 2 == 1 || b % 2 == 1 then 1 else 0
    ensures Or(a, b) / 2 == Or(a / 2, b / 2)
  {
    LastBit(if a % 2 == 1 || b % 2 == 1 then 1 else 0, Or(a / 2, b / 2));
  }

  lemma {:induction false} XorBit(a: nat, b: nat, i: nat)
    ensures Bit(Xor(a, b), i) == if Bit(a, i) != Bit(b, i) then 1 else 0
    decreases i
  {
    hide Bit, Xor;
    XorParts(a, b);
    BitStep(a, b, Xor(a, b), i);
    if i > 0 {
      XorBit(a / 2, b / 2, i - 1);
    }
  }

  lemma XorParts(a: nat, b: nat)
    ensures Xor(a, b) % 2 == if a % 2 != b % 2 then 1 else 0
    ensures Xor(a, b) / 2 == Xor(a / 2, b / 2)
  {
    LastBit(if a % 2 != b % 2 then 1 else 0, Xor(a / 2, b / 2));
  }

  /** Bit i is the lowest bit, or bit i - 1 of the half. */
  lemma BitStep(a: nat, b: nat, r: nat, i: nat)
    ensures i == 0 ==> Bit(a, i) == a % 2 && Bit(b, i) == b % 2 && Bit(r, i) == r % 2
    ensures i > 0 ==> Bit(a, i) == Bit(a / 2, i - 1) && Bit(b, i) == Bit(b / 2, i - 1) && Bit(r, i) == Bit(r / 2, i - 1)
  {
    if i == 0 {
      BitZero(a);
      BitZero(b);
      BitZero(r);
    } else {
      BitOfHalf(a, i - 1);
      BitOfHalf(b, i - 1);
      BitOfHalf(r, i - 1);
    }
    hide Bit;
  }

  lemma {:induction false} NotBit(v: nat, n: nat, i: nat)
    requires v < Pow2(n) && i < n
    ensures Bit(Pow2(n) - 1 - v, i) == 1 - Bit(v, i)
    decreases i
  {
    var p, r := Pow2(n - 1), Pow2(n) - 1 - v;
    assert r == 2 * p - 1 - v;
    assert r / 2 == p - 1 - v / 2 && r % 2 == 1 - v % 2;
    BitStep(v, v, r, i);
    if i > 0 {
      NotBit(v / 2, n - 1, i - 1);
    }
    hide Bit;
  }

  /** A number below 2^n is determined by its n bits. */
  lemma {:induction false} BitsDetermine(x: nat, y: nat, n: nat)
    requires x < Pow2(n) && y < Pow2(n)
    requires forall i: nat :: i < n ==> Bit(x, i) == Bit(y, i)
    ensures x == y
    decreases n
  {
    hide Bit;
    if n > 0 {
      assert Bit(x, 0) == Bit(y, 0);
      BitZero(x);
      BitZero(y);
      forall i: nat | i < n - 1 ensures Bit(x / 2, i) == Bit(y / 2, i) {
        assert Bit(x, i + 1) == Bit(y, i + 1);
        BitOfHalf(x, i);
        BitOfHalf(y, i);
      }
      BitsDetermine(x / 2, y / 2, n - 1);
    }
  }

  /** The low bits of a disjunction are those of its operands. */
  lemma {:induction false} OrLow(a: nat, b: nat, n: nat)
    ensures Or(a, b) % Pow2(n) == Or(a % Pow2(n), b % Pow2(n))
    decreases n
  {
    if n > 0 {
      var p := Pow2(n - 1);
      OrLow(a / 2, b / 2, n - 1);
      OrParts(a, b);
      LowParts(a, p);
      LowParts(b, p);
      LowParts(Or(a, b), p);
      OrParts(a % (2 * p), b % (2 * p));
    }
    hide Or;
  }

  lemma LowParts(x: nat, p: nat)
    requires p > 0
    ensures x % (2 * p) % 2 == x % 2 && x % (2 * p) / 2 == x / 2 % p
  {
    DivDiv(x, 2, p);
    DivModUnique(x % (2 * p), 2, x / 2 % p, x % 2);
  }

  lemma {:induction false} OrAgain(a: nat, b: nat)
    ensures Or(Or(a, b), b) == Or(a, b)
    decreases a
  {
    if a > 0 {
      OrAgain(a / 2, b / 2);
      OrParts(a, b);
      OrParts(Or(a, b), b);
      hide Or;
    } else {
      OrSelf(b);
    }
  }
}
