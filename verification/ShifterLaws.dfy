/** The barrel shifter against section A5.1 of ARM DDI 0100, read as that many
    shifts by one place, each of which puts the bit it drops in the carry. */
module ShifterLaws {
  import opened Words
  import opened Builds
  import opened Core
  import opened Decode

  function OnePlace(kind: nat, v: Word): (Word, Flag) {
    match kind
    case 0 => (Trunc(2 * v), Bit31(v))
    case 1 => (v / 2, v % 2)
    case 2 => (v / 2 + Bit31(v) * 0x8000_0000, v % 2)
    case _ => (v / 2 + v % 2 * 0x8000_0000, v % 2)
  }

  function Places(kind: nat, rm: Word, c: Flag, n: nat): (Word, Flag) {
    if n == 0 then (rm, c) else OnePlace(kind, Places(kind, rm, c, n - 1).0)
  }

  /** Section A5.1: a shift by register moves by its low byte; LSR and ASR
      immediates of 0 stand for 32, and ROR of 0 for a rotation through carry. */
  function Manual(o: Operand): (Word, Flag) {
    if o.byReg || o.imm != 0 || o.kind == 0 then Places(o.kind, o.rm, o.c, if o.byReg then o.rs else o.imm)
    else if o.kind <= 2 then Places(o.kind, o.rm, o.c, 32)
    else (o.rm / 2 + o.c * 0x8000_0000, o.rm % 2)
  }

  // ---------- logical shift left ----------

  lemma TruncDouble(y: nat)
    ensures Trunc(2 * Trunc(y)) == Trunc(2 * y)
  {
    TruncShift(2 * Trunc(y), 2 * (y / 0x1_0000_0000));
  }

  lemma {:induction false} LslPlaces(rm: Word, c: Flag, n: nat)
    ensures rm * Pow2(n) >= 0
    ensures Places(0, rm, c, n).0 == Trunc(rm * Pow2(n))
  {
    MulAtLeast(rm, Pow2(n));
    if n > 0 {
      var y := rm * Pow2(n - 1);
      LslPlaces(rm, c, n - 1);
      TruncDouble(y);
      Doubled(rm, Pow2(n - 1));
      assert rm * Pow2(n) == 2 * y;
      assert Places(0, rm, c, n).0 == Trunc(2 * Trunc(y));
    } else {
      assert rm * Pow2(0) == rm;
    }
  }

  lemma {:induction false} LslEmpties(rm: Word, c: Flag, n: nat)
    requires n >= 32
    ensures Places(0, rm, c, n).0 == 0
  {
    if n == 32 {
      LslPlaces(rm, c, 32);
      Pow2Of32();
      assert Trunc(rm * 0x1_0000_0000) == 0;
    } else {
      LslEmpties(rm, c, n - 1);
    }
  }

  /** The bit lost last by a left shift of 1 to 32 places. */
  lemma LslCarry(rm: Word, c: Flag, n: nat)
    requires 1 <= n <= 32
    ensures Places(0, rm, c, n).1 == Bit(rm, 32 - n)
  {
    LslPlaces(rm, c, n - 1);
    TopBit(rm, n - 1);
  }

  lemma TopBit(x: Word, k: nat)
    requires k <= 31
    ensures x * Pow2(k) >= 0
    ensures Bit31(Trunc(x * Pow2(k))) == Bit(x, 31 - k)
  {
    MulAtLeast(x, Pow2(k));
    Pow2Add(k, 31 - k);
    Pow2Of32();
    TopDigit(x, Pow2(k), Pow2(31 - k));
  }

  lemma TopDigit(x: Word, a: nat, b: nat)
    requires a * b == 0x8000_0000
    ensures x * a >= 0
    ensures Trunc(x * a) / 0x8000_0000 == x / b % 2
  {
    MulAtLeast(x, a);
    assert b > 0 && a > 0;
    assert a * (2 * b) == 0x1_0000_0000;
    MulMod(x, a, 2 * b);
    var w := x % (2 * b);
    assert Trunc(x * a) == w * a;
    MulMod(w, a, b);
    DivDiv(x, b, 2);
    LowQuotient(x % b, x / b % 2, b);
  }

  lemma LowQuotient(r: int, q: int, b: int)
    requires 0 <= r < b
    ensures (r + q * b) / b == q
  {
    DivModUnique(r + q * b, b, q, r);
  }

  // ---------- logical shift right ----------

  lemma {:induction false} LsrPlaces(rm: Word, c: Flag, n: nat)
    ensures Places(1, rm, c, n).0 == rm / Pow2(n)
    ensures n > 0 ==> Places(1, rm, c, n).1 == Bit(rm, n - 1)
  {
    if n > 0 {
      LsrPlaces(rm, c, n - 1);
      DivDiv(rm, Pow2(n - 1), 2);
      assert Pow2(n - 1) * 2 == Pow2(n);
    } else {
      assert Pow2(0) == 1;
    }
  }

  lemma PastTheTop(x: Word, n: nat)
    requires n >= 32
    ensures x / Pow2(n) == 0 && Bit(x, n) == 0
  {
    Pow2Monotone(32, n);
    Pow2Of32();
    DivModUnique(x, Pow2(n), 0, x);
  }

  // ---------- arithmetic shift right ----------

  function SignFill(rm: Word, n: nat): nat
    requires n <= 32
  {
    Pow2Split(n);
    MulAtLeast(Pow2(n), Pow2(32 - n));
    if Bit31(rm) == 1 then 0x1_0000_0000 - Pow2(32 - n) else 0
  }

  lemma {:induction false} AsrPlaces(rm: Word, c: Flag, n: nat)
    requires n <= 32
    ensures Places(2, rm, c, n).0 == rm / Pow2(n) + SignFill(rm, n)
    ensures Bit31(Places(2, rm, c, n).0) == Bit31(rm)
    ensures n > 0 ==> Places(2, rm, c, n).1 == Bit(rm, n - 1)
  {
    Pow2Of32();
    if n > 0 {
      AsrPlaces(rm, c, n - 1);
      AsrPlace(rm, n - 1);
    } else {
      assert Pow2(0) == 1;
    }
  }

  lemma AsrPlace(rm: Word, n: nat)
    requires n < 32
    ensures var v := rm / Pow2(n) + SignFill(rm, n);
            && v / 2 + Bit31(rm) * 0x8000_0000 == rm / Pow2(n + 1) + SignFill(rm, n + 1)
            && v % 2 == Bit(rm, n)
            && (v / 2 + Bit31(rm) * 0x8000_0000) / 0x8000_0000 == Bit31(rm)
  {
    var q := Pow2(31 - n);
    assert Pow2(32 - n) == 2 * q;
    DivDiv(rm, Pow2(n), 2);
    assert Pow2(n) * 2 == Pow2(n + 1);
    DivisionBounds(rm, Pow2(n + 1));
    Halving(rm / Pow2(n), q);
    Pow2Monotone(31 - n, 31);
    Pow2Of32();
    assert Bit31(rm) == 0 ==> rm / Pow2(n + 1) < 0x8000_0000;
    HalvedBound(rm, n);
  }

  lemma Halving(a: int, q: int)
    ensures (a + 0x1_0000_0000 - 2 * q) / 2 == a / 2 + 0x8000_0000 - q
    ensures (a + 0x1_0000_0000 - 2 * q) % 2 == a % 2
  {
  }

  lemma HalvedBound(rm: Word, n: nat)
    requires n < 32
    ensures rm / Pow2(n + 1) < Pow2(31 - n)
  {
    QuotientBound(rm, n + 1);
  }

  /** Section A5.1: ASR is floor division of the signed value, for any number of
      places. */
  lemma {:induction false} AsrFloors(rm: Word, c: Flag, n: nat)
    ensures Signed(Places(2, rm, c, n).0) == Signed(rm) / Pow2(n)
  {
    if n > 0 {
      AsrFloors(rm, c, n - 1);
      SignedHalf(Places(2, rm, c, n - 1).0);
      DivDiv(Signed(rm), Pow2(n - 1), 2);
      assert Pow2(n - 1) * 2 == Pow2(n);
      hide Signed;
    } else {
      assert Pow2(0) == 1;
    }
  }

  lemma SignedHalf(v: Word)
    ensures Signed(v / 2 + Bit31(v) * 0x8000_0000) == Signed(v) / 2
  {
  }

  /** From 32 places on only the sign is left. */
  lemma {:induction false} AsrFills(rm: Word, c: Flag, n: nat)
    requires n >= 32
    ensures Places(2, rm, c, n) == (if Bit31(rm) == 0 then 0 else 0xFFFF_FFFF, Bit31(rm))
  {
    if n == 32 {
      AsrPlaces(rm, c, 32);
      PastTheTop(rm, 32);
      Pow2Of32();
      assert Pow2(0) == 1;
    } else {
      AsrFills(rm, c, n - 1);
    }
  }

  /** asr of util.h as a sum. */
  lemma AsrIsSum(h: Host, x: Word, n: nat)
    requires 1 <= n <= 31
    ensures Asr(h, x, n) == x / Pow2(n) + SignFill(x, n)
  {
    RightPart(h, x, n);
    LeftPart(h, 0xFFFF_FFFF, n);
    if Bit31(x) == 1 {
      OnesTop(n);
      OrWordDisjoint(Shr(h, x, n), 32 - n, 0xFFFF_FFFF % Pow2(n), Shl(h, 0xFFFF_FFFF, 32 - n));
    } else {
      OrZero(Shr(h, x, n));
    }
    hide Shr, Shl, OrWord, Pow2;
  }

  /** The part of a shifted or rotated word that moves right. */
  lemma RightPart(h: Host, x: Word, n: nat)
    requires 1 <= n <= 31
    ensures Shr(h, x, n) == x / Pow2(n) < Pow2(32 - n)
  {
    QuotientBound(x, n);
  }

  /** The part that comes back in at the top. */
  lemma LeftPart(h: Host, x: Word, n: nat)
    requires 1 <= n <= 31
    ensures Shl(h, x, 32 - n) == x % Pow2(n) * Pow2(32 - n)
  {
    Pow2Split(n);
    hide Pow2;
    ShiftedOut(x, Pow2(32 - n), Pow2(n));
  }

  lemma ShiftedOut(x: nat, a: nat, b: nat)
    requires a > 0 && b > 0 && a * b == 0x1_0000_0000
    ensures x * a >= 0
    ensures Trunc(x * a) == x % b * a
  {
    MulAtLeast(x, a);
    MulMod(x, a, b);
  }

  lemma OrWordDisjoint(low: Word, k: nat, high: nat, top: Word)
    requires low < Pow2(k) && top == high * Pow2(k)
    ensures OrWord(low, top) == low + top
  {
    OrDisjoint(low, k, high);
  }

  lemma OnesTop(n: nat)
    requires 1 <= n <= 31
    ensures 0xFFFF_FFFF % Pow2(n) * Pow2(32 - n) == 0x1_0000_0000 - Pow2(32 - n)
  {
    Pow2Split(n);
    OnesAbove(Pow2(n), Pow2(32 - n));
    hide Pow2;
  }

  lemma OnesAbove(p: nat, k: nat)
    requires p > 0 && p * k == 0x1_0000_0000
    ensures 0xFFFF_FFFF % p * k == 0x1_0000_0000 - k
  {
    assert (k - 1) * p == 0x1_0000_0000 - p;
    DivModUnique(0xFFFF_FFFF, p, k - 1, p - 1);
    assert (p - 1) * k == 0x1_0000_0000 - k;
  }

  // ---------- rotate right ----------

  /** The n low bits moved to the top. */
  function Rotated(rm: Word, n: nat): int
    requires n <= 32
  {
    rm / Pow2(n) + rm % Pow2(n) * Pow2(32 - n)
  }

  lemma {:induction false} RorPlaces(rm: Word, c: Flag, n: nat)
    requires n <= 32
    ensures Places(3, rm, c, n).0 == Rotated(rm, n)
    ensures n > 0 ==> Places(3, rm, c, n).1 == Bit(rm, n - 1)
  {
    hide Bit, Rotated;
    if n > 0 {
      RorPlaces(rm, c, n - 1);
      RorPlace(rm, n - 1);
    } else {
      NotRotated(rm);
    }
  }

  lemma NotRotated(rm: Word)
    ensures Rotated(rm, 0) == rm
  {
    Pow2Of32();
    assert Pow2(0) == 1;
    hide Pow2;
  }

  lemma RorPlace(rm: Word, n: nat)
    requires n < 32
    ensures var v := Rotated(rm, n);
            v % 2 == Bit(rm, n) && v / 2 + v % 2 * 0x8000_0000 == Rotated(rm, n + 1)
  {
    assert Pow2(32 - n) == 2 * Pow2(31 - n) && Pow2(n + 1) == 2 * Pow2(n);
    Pow2Add(n, 31 - n);
    Pow2Of32();
    RotationStep(rm, Pow2(n), Pow2(31 - n));
  }

  lemma RotationStep(x: nat, p: nat, q: nat)
    requires p > 0 && p * q == 0x8000_0000
    ensures var v := x / p + x % p * (2 * q);
            && v % 2 == x / p % 2
            && v / 2 + v % 2 * 0x8000_0000 == x / (2 * p) + x % (2 * p) * q
  {
    DivDiv(x, p, 2);
    DivisionBounds(x, p);
    Rotation(x / p, x % p, p, q);
  }

  lemma Rotation(a: nat, r: nat, p: nat, q: nat)
    requires p * q == 0x8000_0000
    ensures var v := a + r * (2 * q);
            && v % 2 == a % 2
            && v / 2 + v % 2 * 0x8000_0000 == a / 2 + (r + a % 2 * p) * q
  {
    assert r * (2 * q) == 2 * (r * q);
    assert (r + a % 2 * p) * q == r * q + (a % 2 * p) * q;
    if a % 2 == 1 {
      assert (a % 2 * p) * q == p * q;
    }
  }

  /** A rotation by 32 places is none. */
  lemma {:induction false} RorPeriod(rm: Word, c: Flag, n: nat)
    requires n >= 32
    ensures Places(3, rm, c, n).0 == Places(3, rm, c, n - 32).0
    ensures n > 32 ==> Places(3, rm, c, n).1 == Places(3, rm, c, n - 32).1
  {
    if n == 32 {
      RorPlaces(rm, c, 32);
      PastTheTop(rm, 32);
      DivisionBounds(rm, Pow2(32));
      Pow2Of32();
      assert Pow2(0) == 1;
    } else {
      RorPeriod(rm, c, n - 1);
    }
  }

  lemma {:induction false} RorReduced(rm: Word, c: Flag, n: nat)
    requires n > 0
    ensures n % 32 == 0 ==> Places(3, rm, c, n) == Places(3, rm, c, 32)
    ensures n % 32 != 0 ==> Places(3, rm, c, n) == Places(3, rm, c, n % 32)
  {
    if n > 32 {
      RorPeriod(rm, c, n);
      RorReduced(rm, c, n - 32);
    }
  }

  /** ror of util.h as a sum. */
  lemma RorIsSum(h: Host, x: Word, n: nat)
    requires 1 <= n <= 31
    ensures Ror(h, x, n) == x / Pow2(n) + x % Pow2(n) * Pow2(32 - n)
  {
    RightPart(h, x, n);
    LeftPart(h, x, n);
    OrWordDisjoint(Shr(h, x, n), 32 - n, x % Pow2(n), Shl(h, x, 32 - n));
    hide Shr, Shl, OrWord, Pow2;
  }

  lemma RrxIsSum(x: Word, c: Flag)
    ensures Rrx(x, c) == x / 2 + c * 0x8000_0000
  {
    Pow2Of32();
    OrDisjoint(x / 2, 31, c);
    OrCommutes(x / 2, c * 0x8000_0000);
  }

  // ---------- the shifter ----------

  /** What the fields of an instruction allow. */
  predicate InFields(o: Operand) {
    o.kind < 4 && o.imm < 32
  }

  lemma GetBitIsBit(h: Host, x: Word, n: nat)
    requires n < 32
    ensures GetBit(h, x, n) == Bit(x, n)
    ensures Bit(x, 0) == x % 2 && Bit(x, 31) == Bit31(x)
  {
    Pow2Of32();
    assert Pow2(0) == 1;
  }

  /** The repaired shifter meets section A5.1 for every operand and amount. */
  lemma RepairedMeetsManual(h: Host, o: Operand)
    requires InFields(o)
    ensures Repaired(h, o) == Manual(o)
  {
    match o.kind
    case 0 => RepairedLsl(h, o);
    case 1 => RepairedLsr(h, o);
    case 2 => RepairedAsr(h, o);
    case _ => RepairedRor(h, o);
  }

  lemma RepairedLsl(h: Host, o: Operand)
    requires InFields(o) && o.kind == 0
    ensures Repaired(h, o) == Manual(o)
  {
    var n := Amount(o);
    if n == 0 {
    } else if n < 32 {
      LslPlaces(o.rm, o.c, n);
      LslCarry(o.rm, o.c, n);
      GetBitIsBit(h, o.rm, 32 - n);
    } else {
      LslEmpties(o.rm, o.c, n);
      if n == 32 {
        LslCarry(o.rm, o.c, 32);
        GetBitIsBit(h, o.rm, 0);
      } else {
        LslEmpties(o.rm, o.c, n - 1);
      }
    }
    hide Bit, GetBit;
  }

  lemma RepairedLsr(h: Host, o: Operand)
    requires InFields(o) && o.kind == 1
    ensures Repaired(h, o) == Manual(o)
  {
    var n := if !o.byReg && o.imm == 0 then 32 else Amount(o);
    LsrPlaces(o.rm, o.c, n);
    if 0 < n <= 32 {
      GetBitIsBit(h, o.rm, n - 1);
    }
    if n >= 32 {
      PastTheTop(o.rm, n);
      if n > 32 {
        PastTheTop(o.rm, n - 1);
      }
    }
    hide Bit, GetBit;
  }

  lemma RepairedAsr(h: Host, o: Operand)
    requires InFields(o) && o.kind == 2
    ensures Repaired(h, o) == Manual(o)
  {
    var n := if !o.byReg && o.imm == 0 then 32 else Amount(o);
    if 0 < n < 32 {
      AsrPlaces(o.rm, o.c, n);
      AsrIsSum(h, o.rm, n);
      GetBitIsBit(h, o.rm, n - 1);
    } else if n >= 32 {
      AsrFills(o.rm, o.c, n);
      GetBitIsBit(h, o.rm, 31);
    }
    hide Bit, GetBit, Asr, SignFill;
  }

  lemma RepairedRor(h: Host, o: Operand)
    requires InFields(o) && o.kind == 3
    ensures Repaired(h, o) == Manual(o)
  {
    hide Bit, GetBit, Ror, Rrx;
    var n := Amount(o);
    if n == 0 {
      RrxIsSum(o.rm, o.c);
      GetBitIsBit(h, o.rm, 0);
    } else {
      RorReduced(o.rm, o.c, n);
      RorTurn(h, o.rm, o.c, if n % 32 == 0 then 32 else n % 32);
      hide Places;
    }
  }

  lemma RorTurn(h: Host, rm: Word, c: Flag, n: nat)
    requires 1 <= n <= 32
    ensures n < 32 ==> Places(3, rm, c, n) == (Ror(h, rm, n), GetBit(h, rm, n - 1))
    ensures n == 32 ==> Places(3, rm, c, n) == (rm, GetBit(h, rm, 31))
  {
    RorPlaces(rm, c, n);
    GetBitIsBit(h, rm, n - 1);
    if n < 32 {
      RorIsSum(h, rm, n);
    } else {
      RorPeriod(rm, c, 32);
    }
    hide Bit, GetBit, Ror;
  }

  // ---------- the shifter as written ----------

  /** When the written value is right whatever the host does with counts outside
      0..31. Lines 37, 49 and 75 let a register amount of 32 or more through when
      Rs is not r0, and an immediate of 0 when r0 is small; line 63 takes the
      sign from the register Rm's low byte numbers. */
  predicate ValueGuard(s: State, o: Operand) {
    var n := Amount(o);
    match o.kind
    case 0 => o.byReg && n == 32 ==> o.imm == 0
    case 1 =>
      && (o.byReg && n == 32 ==> o.imm == 0)
      && (!o.byReg && n == 0 ==> o.rs >= 32 || o.rm == 0)
    case 2 =>
      (o.byReg && n >= 32) || (!o.byReg && n == 0) ==>
        Bit31(ReadR(s, o.rm % 0x100)) == Bit31(o.rm)
    case _ =>
      && (o.byReg && n >= 32 ==>
            (n % 32 == 0 && o.imm == 0) || (n == 32 && o.rm == 0xFFFF_FFFF))
      && (!o.byReg && n == 0 ==>
            o.rs % 32 == 0 || (o.rm == 0xFFFF_FFFF && o.c == 1))
  }

  /** The written value meets section A5.1 on every host exactly under the guard. */
  lemma WrittenValueExact(s: State, o: Operand)
    requires InFields(o)
    ensures (forall h: Host :: WrittenValue(h, s, o) == Manual(o).0) <==> ValueGuard(s, o)
  {
    if ValueGuard(s, o) {
      forall h: Host ensures WrittenValue(h, s, o) == Manual(o).0 {
        WrittenValueRight(h, s, o);
      }
    } else {
      var h := WrittenValueWrong(s, o);
    }
    hide WrittenValue, Manual, ValueGuard;
  }

  lemma WrittenValueRight(h: Host, s: State, o: Operand)
    requires InFields(o) && ValueGuard(s, o)
    ensures WrittenValue(h, s, o) == Manual(o).0
  {
    RepairedMeetsManual(h, o);
    hide Manual, Shl, Shr, Asr, GetBit, ReadR, Bit31;
    match o.kind
    case 0 => ShlByZero(h, o.rm);
    case 1 => ShlByZero(h, o.rm);
    case 2 =>
    case _ => RotatedRight(h, s, o);
  }

  lemma RotatedRight(h: Host, s: State, o: Operand)
    requires InFields(o) && ValueGuard(s, o) && o.kind == 3
    ensures WrittenValue(h, s, o) == Repaired(h, o).0
  {
    hide Or, Shl, Shr, ReadR;
    if o.rm == 0xFFFF_FFFF {
      OnesAbsorb(h, o);
    }
    if o.byReg {
      RotatedByRegister(h, s, o);
    } else {
      RotatedByField(h, s, o);
    }
  }

  lemma RotatedByRegister(h: Host, s: State, o: Operand)
    requires InFields(o) && ValueGuard(s, o) && o.kind == 3 && o.byReg
    requires o.rm == 0xFFFF_FFFF ==> Ror(h, o.rm, 32) == o.rm
    ensures WrittenValue(h, s, o) == Repaired(h, o).0
  {
    hide Ror, Rrx, GetBit, ReadR, Bit31;
  }

  lemma RotatedByField(h: Host, s: State, o: Operand)
    requires InFields(o) && ValueGuard(s, o) && o.kind == 3 && !o.byReg
    requires o.rm == 0xFFFF_FFFF ==> Ror(h, o.rm, 0) == o.rm && (o.c == 1 ==> Rrx(o.rm, o.c) == o.rm)
    ensures WrittenValue(h, s, o) == Repaired(h, o).0
  {
    hide Ror, Rrx, GetBit, ReadR, Bit31;
  }

  lemma OnesAbsorb(h: Host, o: Operand)
    requires o.rm == 0xFFFF_FFFF
    ensures Ror(h, o.rm, 32) == o.rm
    ensures Ror(h, o.rm, 0) == o.rm
    ensures o.c == 1 ==> Rrx(o.rm, o.c) == o.rm
  {
    Pow2Of32();
    ShlByZero(h, o.rm);
    OrOnes(Shr(h, o.rm, 32), 32);
    OrOnes(Shl(h, o.rm, 32), 32);
    OrCommutes(o.rm, Shl(h, o.rm, 32));
    RrxIsSum(o.rm, o.c);
    hide Or, Shl, Shr;
  }

  /** A host on which every shift by a count outside 0..31 yields x. */
  function Constant(x: Word): Host {
    Host((_, _) => x, (_, _) => x, x)
  }

  lemma WrittenValueWrong(s: State, o: Operand) returns (h: Host)
    requires InFields(o) && !ValueGuard(s, o)
    ensures WrittenValue(h, s, o) != Manual(o).0
  {
    var m := Manual(o).0;
    match o.kind {
      case 0 =>
        LslEmpties(o.rm, o.c, 32);
        h := Constant(1);
      case 1 =>
        h := Constant(1);
        LsrPlaces(o.rm, o.c, 32);
        PastTheTop(o.rm, 32);
        ShlByZero(h, o.rm);
      case 2 =>
        AsrFills(o.rm, o.c, if o.byReg then o.rs else 32);
        h := Constant(0);
      case _ =>
        RorPeriod(o.rm, o.c, 32);
        assert Places(3, o.rm, o.c, 0).0 == o.rm;
        RrxOnes(o.rm, o.c);
        h := RotationHost(o, m);
    }
    hide Places, Shl, Shr, Ror, Bit31, ReadR;
  }

  lemma RrxOnes(x: Word, c: Flag)
    ensures x / 2 + c * 0x8000_0000 == 0xFFFF_FFFF ==> x >= 0xFFFF_FFFE && c == 1
  {
  }

  /** A host on which the written rotation differs from m: all zeros or all ones. */
  lemma RotationHost(o: Operand, m: Word) returns (h: Host)
    requires o.kind == 3 && (o.byReg || o.imm == 0)
    requires o.byReg ==> o.rs == 32 || o.rs > 32
    requires o.byReg && o.rs == 32 ==> m == o.rm && o.rm != 0xFFFF_FFFF
    requires !o.byReg ==> !(m == o.rm && m == 0xFFFF_FFFF)
    ensures Ror(h, o.rm, Amount(o)) != m
  {
    var n := Amount(o);
    var ones := Constant(0xFFFF_FFFF);
    RotationByHost(0xFFFF_FFFF, o.rm, n);
    RotationByHost(0, o.rm, n);
    h := if Ror(ones, o.rm, n) != m then ones else Constant(0);
    hide Ror;
  }

  lemma RotationByHost(x: Word, rm: Word, n: nat)
    requires x == 0 || x == 0xFFFF_FFFF
    requires n == 0 || n >= 32
    ensures Ror(Constant(x), rm, n) ==
      if x == 0xFFFF_FFFF then x else if n > 32 then 0 else rm
  {
    var h := Constant(x);
    ShlByZero(h, rm);
    Pow2Of32();
    OrOnes(rm, 32);
    OrCommutes(rm, x);
    OrZero(rm);
    OrSelf(x);
    hide Or, Pow2;
  }

  // ---------- the carry as written ----------

  /** The position of the bit shifted out last, for amounts 1 to 31. */
  function LastOut(o: Operand): nat
    requires 1 <= Amount(o) <= 31
  {
    if o.kind == 0 then 32 - Amount(o) else Amount(o) - 1
  }

  /** No register has bit i set. */
  predicate AllClear(s: State, i: nat) {
    forall k: nat :: k <= 15 ==> Bit(ReadR(s, k), i) == 0
  }

  /** When the written carry is right whatever the host does with counts outside 0..31.
      The bit is taken from the register that the low byte of the shifted word numbers,
      at the right place for amounts 1 to 31. The host decides it for LSL #0 and LSR #32
      when Rs's low byte is below 32, for RRX when it is no multiple of 32, and for
      rotations by more than 32, unless by a multiple of 32 given in R0.
      Where the host decides only the shifted word, every register that word may number
      must have the right bit. */
  predicate CarryGuard(s: State, o: Operand) {
    var n := Amount(o);
    if 1 <= n <= 31 then Bit(ReadR(s, Manual(o).0 % 0x100), LastOut(o)) == Bit(o.rm, LastOut(o))
    else if o.byReg && n == 0 then true
    else match o.kind
      case 0 =>
        if !o.byReg then o.rs >= 32
        else if n > 32 then true
        else if o.imm == 0 then Bit(ReadR(s, 0), 0) == Bit(o.rm, 0)
        else AllClear(s, 0) && Bit(o.rm, 0) == 0
      case 1 =>
        if n > 32 then true
        else if o.byReg && o.imm != 0 then AllClear(s, 31) && Bit31(o.rm) == 0
        else (o.byReg || o.rs >= 32) && Bit31(ReadR(s, 0)) == Bit31(o.rm)
      case 2 =>
        if Bit31(ReadR(s, o.rm % 0x100)) == 0 then Bit31(ReadR(s, 0)) == Bit31(o.rm) else Bit31(o.rm) == 0
      case _ =>
        if !o.byReg then o.rs % 32 == 0 && Bit(ReadR(s, o.rm / 2 % 0x100), 0) == Bit(o.rm, 0)
        else if o.imm == 0 then n % 32 == 0 && Bit31(ReadR(s, o.rm % 0x100)) == Bit31(o.rm)
        else n == 32 && Bit31(o.rm) == 0 && AboveClear(s, o.rm % 0x100)
  }

  /** No register whose number has all the bits of low set is negative. */
  predicate AboveClear(s: State, low: nat) {
    forall k: nat :: k <= 15 && Or(k, low) == k ==> Bit31(ReadR(s, k)) == 0
  }

  function CarryOf(h: Host, s: State, o: Operand): Flag {
    WrittenCarry(h, s, o, WrittenValue(h, s, o))
  }

  /** The written carry meets section A5.1 on every host exactly under the guard, for
      every operand and amount. */
  lemma WrittenCarryExact(s: State, o: Operand)
    requires InFields(o)
    ensures (forall h: Host :: WrittenCarry(h, s, o, WrittenValue(h, s, o)) == Manual(o).1) <==> CarryGuard(s, o)
  {
    hide CarryGuard, Manual, WrittenCarry, WrittenValue;
    if CarryGuard(s, o) {
      forall h: Host ensures WrittenCarry(h, s, o, WrittenValue(h, s, o)) == Manual(o).1 {
        CarryRight(h, s, o);
      }
    } else {
      var h := CarryWrong(s, o);
      assert CarryOf(h, s, o) != Manual(o).1;
    }
  }

  lemma CarryRight(h: Host, s: State, o: Operand)
    requires InFields(o) && CarryGuard(s, o)
    ensures CarryOf(h, s, o) == Manual(o).1
  {
    hide CarryOf, CarryGuard, Manual;
    if 1 <= Amount(o) <= 31 {
      SmallCarry(h, s, o);
    } else if !(o.byReg && Amount(o) == 0) {
      match o.kind {
        case 0 => LslCarryRight(h, s, o);
        case 1 => LsrCarryRight(h, s, o);
        case 2 => AsrCarryExact(h, s, o);
        case _ => RorCarryRight(h, s, o);
      }
    } else {
      NoCarry(h, s, o);
    }
  }

  lemma CarryWrong(s: State, o: Operand) returns (h: Host)
    requires InFields(o) && !CarryGuard(s, o)
    ensures CarryOf(h, s, o) != Manual(o).1
  {
    hide CarryOf, CarryGuard, Manual;
    h := Constant(0);
    if 1 <= Amount(o) <= 31 {
      SmallCarry(h, s, o);
    } else if !(o.byReg && Amount(o) == 0) {
      match o.kind {
        case 0 => h := LslCarryWrong(s, o);
        case 1 => h := LsrCarryWrong(s, o);
        case 2 => AsrCarryExact(h, s, o);
        case _ => h := RorCarryWrong(s, o);
      }
    } else {
      NoCarry(h, s, o);
    }
  }

  lemma NoCarry(h: Host, s: State, o: Operand)
    requires o.byReg && o.rs == 0
    ensures CarryGuard(s, o) && CarryOf(h, s, o) == Manual(o).1
  {
  }

  lemma SmallCarry(h: Host, s: State, o: Operand)
    requires InFields(o) && 1 <= Amount(o) <= 31
    ensures CarryOf(h, s, o) == Bit(ReadR(s, Manual(o).0 % 0x100), LastOut(o))
    ensures CarryOf(h, s, o) == Manual(o).1 <==> CarryGuard(s, o)
  {
    hide Manual, Bit, GetBit, Shl, Shr, Asr, Ror, Rrx, ReadR;
    RepairedMeetsManual(h, o);
    assert ValueGuard(s, o);
    WrittenValueRight(h, s, o);
    hide WrittenValue, ValueGuard;
    GetBitIsBit(h, ReadR(s, Manual(o).0 % 0x100), LastOut(o));
    GetBitIsBit(h, o.rm, LastOut(o));
  }

  lemma NoRegister(s: State, k: nat, i: nat)
    requires k > 15
    ensures ReadR(s, k) == 0 && Bit(ReadR(s, k), i) == 0
  {
    BitOfZero(i);
    hide Bit;
  }

  lemma HostBit(h: Host, v: Word, x: Word, n: nat)
    requires h == Constant(v) && n >= 32
    ensures GetBit(h, x, n) == v % 2 && Shl(h, x, n) == v && Shr(h, x, n) == v
  {
  }

  // The manual's carry for the amounts outside 1..31.
  lemma EndCarry(h: Host, o: Operand)
    requires InFields(o) && !(1 <= Amount(o) <= 31) && !(o.byReg && o.rs == 0)
    ensures Manual(o).1 ==
      if o.kind == 0 then (if !o.byReg then o.c else if o.rs > 32 then 0 else Bit(o.rm, 0))
      else if o.kind == 1 then (if o.byReg && o.rs > 32 then 0 else Bit31(o.rm))
      else if o.kind == 2 then Bit31(o.rm)
      else if !o.byReg then Bit(o.rm, 0)
      else Bit(o.rm, if o.rs % 32 == 0 then 31 else o.rs % 32 - 1)
  {
    RepairedMeetsManual(h, o);
    GetBitIsBit(h, o.rm, 0);
    GetBitIsBit(h, o.rm, 31);
    if o.byReg && o.rs % 32 > 0 {
      GetBitIsBit(h, o.rm, o.rs % 32 - 1);
    }
    hide Manual, Bit, GetBit, Shl, Shr, Asr, Ror, Rrx, Bit31;
  }

  /** LSL by 32 in a register, and LSL #0. */
  lemma LslCarryOf(h: Host, s: State, o: Operand)
    requires InFields(o) && o.kind == 0 && if o.byReg then o.rs >= 32 else o.imm == 0
    ensures !o.byReg && o.rs >= 32 ==> CarryOf(h, s, o) == o.c
    ensures !o.byReg && o.rs < 32 ==> CarryOf(h, s, o) == GetBit(h, ReadR(s, WrittenValue(h, s, o) % 0x100), 32)
    ensures o.byReg && o.rs > 32 ==> CarryOf(h, s, o) == 0
    ensures o.byReg && o.rs == 32 && o.imm == 0 ==> CarryOf(h, s, o) == GetBit(h, ReadR(s, 0), 0)
    ensures o.byReg && o.rs == 32 && o.imm != 0 ==> CarryOf(h, s, o) == GetBit(h, ReadR(s, Shl(h, o.rm, 32) % 0x100), 0)
  {
    hide GetBit, ReadR, Shl;
  }

  lemma LslGuard(s: State, o: Operand)
    requires o.kind == 0 && if o.byReg then o.rs >= 32 else o.imm == 0
    ensures CarryGuard(s, o) <==>
      if !o.byReg then o.rs >= 32
      else if o.rs > 32 then true
      else if o.imm == 0 then Bit(ReadR(s, 0), 0) == Bit(o.rm, 0)
      else AllClear(s, 0) && Bit(o.rm, 0) == 0
  {
    hide Bit, ReadR, AllClear, Manual;
  }

  lemma ClearBit(s: State, i: nat, k: nat)
    requires AllClear(s, i)
    ensures Bit(ReadR(s, k), i) == 0
  {
    hide Bit, ReadR;
    if k > 15 {
      NoRegister(s, k, i);
    }
  }

  lemma LslCarryRight(h: Host, s: State, o: Operand)
    requires InFields(o) && CarryGuard(s, o) && o.kind == 0 && !(1 <= Amount(o) <= 31) && !(o.byReg && o.rs == 0)
    ensures CarryOf(h, s, o) == Manual(o).1
  {
    hide Manual, ReadR, Bit, GetBit, Shl, CarryOf, CarryGuard, AllClear, WrittenValue;
    EndCarry(h, o);
    LslGuard(s, o);
    LslCarryOf(h, s, o);
    GetBitIsBit(h, ReadR(s, 0), 0);
    if o.byReg && o.rs == 32 && o.imm != 0 {
      var k := Shl(h, o.rm, 32) % 0x100;
      GetBitIsBit(h, ReadR(s, k), 0);
      ClearBit(s, 0, k);
    }
  }

  lemma LslCarryWrong(s: State, o: Operand) returns (h: Host)
    requires InFields(o) && !CarryGuard(s, o) && o.kind == 0 && !(1 <= Amount(o) <= 31) && !(o.byReg && o.rs == 0)
    ensures CarryOf(h, s, o) != Manual(o).1
  {
    hide Manual, ReadR, Bit, GetBit, Shl, Constant, CarryOf, CarryGuard, AllClear, WrittenValue;
    h := Constant(1 - o.c);
    LslGuard(s, o);
    if !o.byReg {
      HostBit(h, 1 - o.c, ReadR(s, WrittenValue(h, s, o) % 0x100), 32);
    } else if o.imm == 0 {
      GetBitIsBit(h, ReadR(s, 0), 0);
    } else {
      var k := AgreesNot(s, 0, Bit(o.rm, 0));
      h := Constant(k);
      HostBit(h, k, o.rm, 32);
      GetBitIsBit(h, ReadR(s, k), 0);
    }
    EndCarry(h, o);
    LslCarryOf(h, s, o);
  }

  /** A register number at which bit i is not b. */
  lemma AgreesNot(s: State, i: nat, b: Flag) returns (k: nat)
    requires !(AllClear(s, i) && b == 0)
    ensures k <= 16 && Bit(ReadR(s, k), i) != b
  {
    hide ReadR, Bit;
    if b == 0 {
      k :| k <= 15 && Bit(ReadR(s, k), i) != 0;
    } else {
      k := 16;
      NoRegister(s, k, i);
    }
  }

  lemma LsrCarryRight(h: Host, s: State, o: Operand)
    requires InFields(o) && CarryGuard(s, o) && o.kind == 1 && !(1 <= Amount(o) <= 31) && !(o.byReg && o.rs == 0)
    ensures CarryOf(h, s, o) == Manual(o).1
  {
    hide Manual, ReadR, Bit, Bit31, GetBit, Shr, CarryOf, CarryGuard, AllClear, WrittenValue;
    EndCarry(h, o);
    LsrGuard(s, o);
    LsrCarryOf(h, s, o);
    GetBitIsBit(h, ReadR(s, 0), 31);
    if o.byReg && o.rs == 32 && o.imm != 0 {
      var k := Shr(h, o.rm, 32) % 0x100;
      GetBitIsBit(h, ReadR(s, k), 31);
      ClearBit(s, 31, k);
    }
  }

  lemma LsrGuard(s: State, o: Operand)
    requires o.kind == 1 && if o.byReg then o.rs >= 32 else o.imm == 0
    ensures CarryGuard(s, o) <==>
      if o.byReg && o.rs > 32 then true
      else if o.byReg && o.imm != 0 then AllClear(s, 31) && Bit31(o.rm) == 0
      else (o.byReg || o.rs >= 32) && Bit31(ReadR(s, 0)) == Bit31(o.rm)
  {
    hide Bit, Bit31, ReadR, AllClear, Manual;
  }

  lemma LsrCarryOf(h: Host, s: State, o: Operand)
    requires o.kind == 1 && if o.byReg then o.rs >= 32 else o.imm == 0
    ensures o.byReg && o.rs > 32 ==> CarryOf(h, s, o) == 0
    ensures o.byReg && o.rs == 32 && o.imm != 0 ==>
      CarryOf(h, s, o) == GetBit(h, ReadR(s, Shr(h, o.rm, 32) % 0x100), 31)
    ensures !o.byReg && o.rs < 32 ==>
      CarryOf(h, s, o) == GetBit(h, ReadR(s, WrittenValue(h, s, o) % 0x100), 0xFFFF_FFFF)
    ensures (if o.byReg then o.rs == 32 && o.imm == 0 else o.rs >= 32) ==>
      CarryOf(h, s, o) == GetBit(h, ReadR(s, 0), 31)
  {
    hide GetBit, ReadR, Shr;
  }

  lemma LsrCarryWrong(s: State, o: Operand) returns (h: Host)
    requires InFields(o) && !CarryGuard(s, o) && o.kind == 1 && !(1 <= Amount(o) <= 31) && !(o.byReg && o.rs == 0)
    ensures CarryOf(h, s, o) != Manual(o).1
  {
    hide Manual, ReadR, Bit, Bit31, GetBit, Shr, Constant, CarryGuard, CarryOf, AllClear, WrittenValue;
    h := Constant(1 - Bit31(o.rm));
    LsrGuard(s, o);
    GetBitIsBit(h, o.rm, 31);
    if o.byReg && o.imm != 0 {
      var k := AgreesNot(s, 31, Bit31(o.rm));
      h := Constant(k);
      HostBit(h, k, o.rm, 32);
      GetBitIsBit(h, ReadR(s, k), 31);
    } else if !o.byReg && o.rs < 32 {
      HostBit(h, 1 - Bit31(o.rm), ReadR(s, WrittenValue(h, s, o) % 0x100), 0xFFFF_FFFF);
    } else {
      GetBitIsBit(h, ReadR(s, 0), 31);
    }
    EndCarry(h, o);
    LsrCarryOf(h, s, o);
  }

  lemma AsrCarryExact(h: Host, s: State, o: Operand)
    requires InFields(o) && o.kind == 2 && !(1 <= Amount(o) <= 31) && !(o.byReg && o.rs == 0)
    ensures CarryOf(h, s, o) == Manual(o).1 <==> CarryGuard(s, o)
  {
    hide Manual, ReadR, Bit, Bit31, GetBit, Asr, CarryOf;
    EndCarry(h, o);
    FilledCarry(h, s, o);
  }

  lemma FilledCarry(h: Host, s: State, o: Operand)
    requires o.kind == 2 && if o.byReg then o.rs >= 32 else o.imm == 0
    ensures CarryOf(h, s, o) == if Bit31(ReadR(s, o.rm % 0x100)) == 0 then Bit31(ReadR(s, 0)) else 0
  {
    hide ReadR, Bit, Bit31, GetBit, Asr;
    var k := WrittenValue(h, s, o) % 0x100;
    assert CarryOf(h, s, o) == GetBit(h, ReadR(s, k), 31);
    GetBitIsBit(h, ReadR(s, k), 31);
    if k == 0xFF {
      NoRegister(s, k, 31);
    }
  }

  lemma RorGuard(s: State, o: Operand)
    requires o.kind == 3 && !(1 <= Amount(o) <= 31) && !(o.byReg && o.rs == 0)
    ensures !o.byReg ==> CarryGuard(s, o) == (o.rs % 32 == 0 && Bit(ReadR(s, o.rm / 2 % 0x100), 0) == Bit(o.rm, 0))
    ensures o.byReg && o.imm == 0 ==>
      CarryGuard(s, o) == (o.rs % 32 == 0 && Bit31(ReadR(s, o.rm % 0x100)) == Bit31(o.rm))
    ensures o.byReg && o.imm != 0 ==>
      CarryGuard(s, o) == (o.rs == 32 && Bit31(o.rm) == 0 && AboveClear(s, o.rm % 0x100))
  {
    hide Bit, Bit31, ReadR, AboveClear, Manual;
  }

  lemma RorCarryRight(h: Host, s: State, o: Operand)
    requires InFields(o) && CarryGuard(s, o) && o.kind == 3 && !(1 <= Amount(o) <= 31) && !(o.byReg && o.rs == 0)
    ensures CarryOf(h, s, o) == Manual(o).1
  {
    hide Manual, ReadR, Bit, Bit31, GetBit, Ror, Rrx, AboveClear, CarryOf, CarryGuard, Or, Shr;
    EndCarry(h, o);
    RorGuard(s, o);
    GetBitIsBit(h, o.rm, 31);
    if !o.byReg {
      RrxLow(h, s, o);
    } else if o.imm == 0 {
      GetBitIsBit(h, ReadR(s, o.rm % 0x100), 31);
      UnrotatedCarry(h, s, o);
    } else {
      RotatedCarry(h, s, o);
      RotatedLow(h, o.rm);
      var k := Ror(h, o.rm, 32) % 0x100;
      GetBitIsBit(h, ReadR(s, k), 31);
      RegisterAbove(s, o.rm % 0x100, k);
    }
  }

  lemma RegisterAbove(s: State, low: nat, k: nat)
    requires AboveClear(s, low) && Or(k, low) == k
    ensures Bit31(ReadR(s, k)) == 0
  {
    if k > 15 {
      NoRegister(s, k, 31);
    }
    hide Or, ReadR;
  }

  lemma RrxLow(h: Host, s: State, o: Operand)
    requires o.kind == 3 && !o.byReg && o.imm == 0 && o.rs % 32 == 0
    ensures CarryOf(h, s, o) == Bit(ReadR(s, o.rm / 2 % 0x100), 0)
  {
    hide Rrx, Ror, ReadR, Bit, GetBit;
    RrxIsSum(o.rm, o.c);
    RrxByte(o.rm, o.c);
    GetBitIsBit(h, ReadR(s, o.rm / 2 % 0x100), 0);
  }

  lemma RrxByte(x: Word, c: Flag)
    ensures (x / 2 + c * 0x8000_0000) % 0x100 == x / 2 % 0x100
  {
    DivModUnique(x / 2 + c * 0x8000_0000, 0x100, x / 2 / 0x100 + c * 0x80_0000, x / 2 % 0x100);
  }

  lemma UnrotatedCarry(h: Host, s: State, o: Operand)
    requires o.kind == 3 && o.byReg && o.rs > 0 && o.rs % 32 == 0 && o.imm == 0
    ensures CarryOf(h, s, o) == GetBit(h, ReadR(s, o.rm % 0x100), 31)
  {
    hide Rrx, Ror, ReadR, GetBit;
  }

  lemma RotatedCarry(h: Host, s: State, o: Operand)
    requires o.kind == 3 && o.byReg && o.rs >= 32 && (o.rs % 32 > 0 || o.imm != 0)
    ensures CarryOf(h, s, o) == GetBit(h, ReadR(s, Ror(h, o.rm, o.rs) % 0x100), o.rs - 1)
  {
    hide Rrx, Ror, ReadR, GetBit;
  }

  /** Rotated by 32 as written, a word keeps its bits and gets more from the host. */
  lemma RotatedLow(h: Host, rm: Word)
    ensures var k, low := Ror(h, rm, 32) % 0x100, rm % 0x100;
      k == Or(Shr(h, rm, 32) % 0x100, low) && Or(k, low) == k
  {
    ShlByZero(h, rm);
    Pow2Of32();
    hide Or, Shr, Shl, Pow2;
    OrLow(Shr(h, rm, 32), rm, 8);
    OrAgain(Shr(h, rm, 32) % 0x100, rm % 0x100);
  }

  lemma RorCarryWrong(s: State, o: Operand) returns (h: Host)
    requires InFields(o) && !CarryGuard(s, o) && o.kind == 3 && !(1 <= Amount(o) <= 31) && !(o.byReg && o.rs == 0)
    ensures CarryOf(h, s, o) != Manual(o).1
  {
    hide Manual, ReadR, Bit, Bit31, GetBit, Ror, Rrx, AboveClear, CarryOf, CarryGuard, Constant, Shl, Shr, Or;
    h := Constant(1 - Manual(o).1);
    EndCarry(h, o);
    RorGuard(s, o);
    GetBitIsBit(h, o.rm, 31);
    if !o.byReg {
      if o.rs % 32 == 0 {
        RrxLow(h, s, o);
      } else {
        RrxByHost(h, s, o);
        HostBit(h, 1 - Manual(o).1, ReadR(s, Ror(h, o.rm, 0) % 0x100), 0xFFFF_FFFF);
      }
    } else if o.rs % 32 == 0 && o.imm == 0 {
      GetBitIsBit(h, ReadR(s, o.rm % 0x100), 31);
      UnrotatedCarry(h, s, o);
    } else if o.rs > 32 {
      RotatedCarry(h, s, o);
      HostBit(h, 1 - Manual(o).1, ReadR(s, Ror(h, o.rm, o.rs) % 0x100), o.rs - 1);
    } else {
      var k := Above(s, o.rm);
      h := Constant(k);
      HostBit(h, k, o.rm, 32);
      RotatedLow(h, o.rm);
      RotatedCarry(h, s, o);
      GetBitIsBit(h, ReadR(s, k), 31);
    }
  }

  lemma RrxByHost(h: Host, s: State, o: Operand)
    requires o.kind == 3 && !o.byReg && o.imm == 0 && o.rs % 32 > 0
    ensures CarryOf(h, s, o) == GetBit(h, ReadR(s, Ror(h, o.rm, 0) % 0x100), 0xFFFF_FFFF)
  {
    hide Rrx, Ror, ReadR, GetBit;
  }

  /** A register number above rm's low byte whose sign is not rm's. */
  lemma Above(s: State, rm: Word) returns (k: nat)
    requires !(Bit31(rm) == 0 && AboveClear(s, rm % 0x100))
    ensures k < 0x100 && Or(k, rm % 0x100) == k && Bit31(ReadR(s, k)) != Bit31(rm)
  {
    hide ReadR, Or;
    if Bit31(rm) == 0 {
      k :| k <= 15 && Or(k, rm % 0x100) == k && Bit31(ReadR(s, k)) != 0;
    } else {
      k := 0xFF;
      Pow2Of32();
      OrOnes(rm % 0x100, 8);
      OrCommutes(rm % 0x100, 0xFF);
      NoRegister(s, k, 31);
    }
  }
}
