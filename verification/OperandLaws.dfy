/** Where the operands and results that the code computes are those of ARM DDI 0100,
    and where they are not. */
module OperandLaws {
  import opened Words
  import opened Builds
  import opened Core
  import opened Fields
  import opened Decode
  import opened DataProcessing
  import opened FlagLaws
  import opened LoadStore
  import opened ShifterLaws

  // ---------- the sixteen operations ----------

  /** Section A3.4: what a logical operation makes of two bits. */
  predicate BitResult(op: nat, x: Flag, y: Flag) {
    match op
    case 0 => x == 1 && y == 1
    case 8 => x == 1 && y == 1
    case 1 => x != y
    case 9 => x != y
    case 12 => x == 1 || y == 1
    case 13 => y == 1
    case 14 => x == 1 && y == 0
    case _ => y == 0
  }

  /** Section A3.4: an arithmetic operation yields the exact result modulo 2^32, a
      logical one the word of its 32 bits. */
  ghost predicate IsResult(op: nat, a: Word, v: Word, c: Flag, r: Word) {
    if IsArith(op) then r == Trunc(Exact(op, a, v, c))
    else forall i: nat :: i < 32 ==> (Bit(r, i) == 1 <==> BitResult(op, Bit(a, i), Bit(v, i)))
  }

  /** There is no more than one such word. */
  lemma ResultIsUnique(op: nat, a: Word, v: Word, c: Flag, r: Word, r': Word)
    requires IsResult(op, a, v, c, r) && IsResult(op, a, v, c, r')
    ensures r == r'
  {
    hide Trunc, Exact, BitResult, Bit;
    if !IsArith(op) {
      Pow2Of32();
      BitsDetermine(r, r', 32);
    }
  }

  lemma BicResult(a: Word, v: Word, c: Flag)
    ensures IsResult(14, a, v, c, And(a, NotWord(v)))
  {
    Pow2Of32();
    hide Bit, Pow2, And;
    forall i: nat | i < 32 ensures Bit(And(a, NotWord(v)), i) == 1 <==> BitResult(14, Bit(a, i), Bit(v, i)) {
      AndBit(a, NotWord(v), i);
      NotBit(v, 32, i);
    }
  }

  lemma MvnResult(a: Word, v: Word, c: Flag)
    ensures IsResult(15, a, v, c, NotWord(v))
  {
    Pow2Of32();
    hide Bit, Pow2;
    forall i: nat | i < 32 ensures Bit(NotWord(v), i) == 1 <==> BitResult(15, Bit(a, i), Bit(v, i)) {
      NotBit(v, 32, i);
    }
  }

  lemma LogicalResult(op: nat, a: Word, v: Word, c: Flag)
    requires op in {0, 1, 8, 9, 12, 13}
    ensures IsResult(op, a, v, c, Alu(op, a, v, c))
  {
    hide Bit, And, Or, Xor;
    forall i: nat | i < 32 ensures Bit(Alu(op, a, v, c), i) == 1 <==> BitResult(op, Bit(a, i), Bit(v, i)) {
      AndBit(a, v, i);
      XorBit(a, v, i);
      OrBit(a, v, i);
    }
  }

  /** A number's bits inside and outside a mask add up to it. */
  lemma {:induction false} AndSplits(a: nat, v: nat, n: nat)
    requires a < Pow2(n) && v < Pow2(n)
    ensures And(a, v) + And(a, Pow2(n) - 1 - v) == a
    decreases n
  {
    hide And;
    if a > 0 {
      var p := Pow2(n - 1);
      AndSplits(a / 2, v / 2, n - 1);
      ComplementHalves(p, v);
      AndParts(a, v);
      AndParts(a, 2 * p - 1 - v);
    } else {
      AndZero(0);
    }
  }

  lemma ComplementHalves(p: int, v: int)
    ensures (2 * p - 1 - v) / 2 == p - 1 - v / 2 && (2 * p - 1 - v) % 2 == 1 - v % 2
  {
  }

  /** Fourteen operations are right for all operands. BIC, with a logical negation, is
      right exactly when it clears all of the first operand or, for an operand of 0,
      when the first operand is at most 1; MVN exactly for all ones. */
  lemma AluExact(op: nat, a: Word, v: Word, c: Flag)
    requires op < 16
    ensures IsResult(op, a, v, c, Alu(op, a, v, c)) <==>
      (match op
       case 14 => if v == 0 then a <= 1 else And(a, v) == a
       case 15 => v == 0xFFFF_FFFF
       case _ => true)
  {
    hide And, XorWord, OrWord, Trunc, IsResult;
    if IsArith(op) {
      ArithResult(op, a, v, c);
    } else if op == 14 {
      BicExact(a, v);
      BicResult(a, v, c);
      MeansEqual(op, a, v, c, And(a, NotWord(v)), Alu(op, a, v, c));
    } else if op == 15 {
      MvnResult(a, v, c);
      MeansEqual(op, a, v, c, NotWord(v), Alu(op, a, v, c));
    } else {
      LogicalResult(op, a, v, c);
    }
  }

  lemma MeansEqual(op: nat, a: Word, v: Word, c: Flag, r: Word, r': Word)
    requires IsResult(op, a, v, c, r)
    ensures IsResult(op, a, v, c, r') <==> r' == r
  {
    hide IsResult;
    if IsResult(op, a, v, c, r') {
      ResultIsUnique(op, a, v, c, r, r');
    }
  }

  lemma ArithResult(op: nat, a: Word, v: Word, c: Flag)
    requires IsArith(op)
    ensures IsResult(op, a, v, c, Alu(op, a, v, c))
  {
    ResultIsExact(op, a, v, c);
    hide Alu, Exact;
  }

  lemma BicExact(a: Word, v: Word)
    ensures And(a, ToFlag(v == 0)) == And(a, NotWord(v)) <==> if v == 0 then a <= 1 else And(a, v) == a
  {
    AndOne(a);
    AndZero(a);
    AndAll(a);
    InsideOutside(a, v);
    hide And;
  }

  lemma InsideOutside(a: Word, v: Word)
    ensures And(a, v) + And(a, NotWord(v)) == a
  {
    Pow2Of32();
    AndSplits(a, v, 32);
    hide And, Pow2;
  }

  lemma AndAll(a: Word)
    ensures And(a, 0xFFFF_FFFF) == a
  {
    Pow2Of32();
    AndLowOnes(a, 32, 0);
    hide And, Pow2;
  }

  // ---------- the rotated immediate ----------

  lemma ImmediateOperand(b: Build, s: State, ins: Word)
    requires Bit25(ins) == 1
    ensures SecondOperand(b, s, ins).0 == Imm8(ins)
  {
  }

  /** Section A5.1: an 8-bit immediate rotated right by twice the rotate field. */
  function ManualImmediate(ins: Word, c: Flag): (Word, Flag) {
    Places(3, Imm8(ins), c, 2 * Rs(ins))
  }

  /** Line 277 takes the immediate unrotated: right exactly when the rotate field or
      the immediate is 0. Lines 281-282 take the carry from bit 31 of twelve bits, which
      is 0: right exactly without a rotation or when a 0 is rotated in last. */
  lemma ImmediateExact(b: Build, s: State, ins: Word)
    requires Bit25(ins) == 1
    ensures SecondOperand(b, s, ins).0 == ManualImmediate(ins, CFlag(Cpsr(s))).0 <==> Rs(ins) == 0 || Imm8(ins) == 0
    ensures SecondOperand(b, s, ins).1 == ManualImmediate(ins, CFlag(Cpsr(s))).1
      <==> Rs(ins) == 0 || Bit(Imm8(ins), 2 * Rs(ins) - 1) == 0
  {
    var n: nat, x: Word := 2 * Rs(ins), Imm8(ins);
    assert n <= 30 && x < 0x100;
    hide Rs, Imm8, Bit25, CFlag, Places, Bit;
    RorPlaces(x, CFlag(Cpsr(s)), n);
    if n > 0 {
      Pow2Split(n);
      RotationMoves(x, n);
    } else {
      NoPlaces(x, CFlag(Cpsr(s)));
    }
  }

  lemma NoPlaces(x: Word, c: Flag)
    ensures Places(3, x, c, 0) == (x, c)
  {
  }

  lemma RotationMoves(x: nat, n: nat)
    requires x < 0x100 && 2 <= n <= 30
    ensures x / Pow2(n) + x % Pow2(n) * Pow2(32 - n) == x <==> x == 0
  {
    Pow2Split(n);
    Pow2Of32();
    DivisionBounds(x, Pow2(n));
    Pow2Monotone(2, n);
    Pow2Monotone(2, 32 - n);
    assert Pow2(2) == 4;
    var p, q := Pow2(n), Pow2(32 - n);
    if n <= 24 {
      Pow2Monotone(8, 32 - n);
      SmallRotation(x, p, q);
    } else {
      Pow2Monotone(8, n);
      DivModUnique(x, p, 0, x);
      MulAtLeast(x, q);
      AtLeastFour(x, q);
    }
  }

  lemma AtLeastFour(x: nat, q: nat)
    requires q >= 4
    ensures x * q >= 4 * x
  {
    MulAtLeast(x, q);
    assert x * q - 4 * x == x * (q - 4);
    if q > 4 {
      MulAtLeast(x, q - 4);
    }
  }

  /** Either nothing comes back in, and the rest shrinks, or something large does. */
  lemma SmallRotation(x: nat, p: nat, q: nat)
    requires x < 0x100 && p >= 4 && q >= 0x100
    ensures x / p + x % p * q == x <==> x == 0
  {
    DivisionBounds(x, p);
    MulAtLeast(x % p, q);
    if x % p == 0 {
      AtLeastFour(x / p, p);
      assert x == x / p * p;
    }
  }

  // ---------- a plain register ----------

  lemma LowRead(s: State, reg: nat)
    requires reg <= 7
    ensures ReadR(s, reg) == s.regs[reg]
  {
  }

  /** Rm, LSL #0: the value is right as written. */
  lemma OperandLsl0(b: Build, s: State, ins: Word)
    requires Bit25(ins) == 0 && Bit4(ins) == 0 && ShiftKind(ins) == 0 && ShiftImm(ins) == 0
    ensures SecondOperand(b, s, ins).0 == ReadR(s, Rm(ins))
  {
    ShlByZero(b.host, ReadR(s, Rm(ins)));
    hide ReadR, Rm, Rs, WrittenCarry, GetBit, Shl;
  }

  // ---------- offsets ----------

  /** Line 245 keeps an offset register in 16 bits: the address is right exactly when
      the register is below 2^16. */
  lemma OffsetExact(base: Word, offset: Word, up: Flag)
    ensures HandlingOffset(base, offset % 0x1_0000, up) == HandlingOffset(base, offset, up) <==> offset < 0x1_0000
  {
    var q := offset / 0x1_0000;
    assert offset == q * 0x1_0000 + offset % 0x1_0000;
    if up == 1 {
      Distinct(base + offset % 0x1_0000, q);
    } else {
      Distinct(base - offset, q);
    }
    hide Trunc;
  }

  /** Section A5.2: an offset is the immediate, or the register Rm shifted. */
  function ManualOffset(s: State, ins: Word): Word {
    if Bit25(ins) == 0 then Imm12(ins) else Manual(OperandOf(s, ins)).0
  }

  function ManualWordAddress(s: State, ins: Word): Word {
    if Bit24(ins) == 0 then ReadR(s, Rn(ins))
    else HandlingOffset(ReadR(s, Rn(ins)), ManualOffset(s, ins), Bit23(ins))
  }

  /** The address of a word or byte transfer is right exactly for the post-indexed forms,
      for immediate offsets, and for register offsets, scaled or not, below 2^16; the
      base moves to the right place exactly in the last two cases. It takes a shifter
      that is repaired or, for this operand, right as written. */
  lemma WordAddressExact(b: Build, s: State, ins: Word)
    requires b.shifter || ValueGuard(s, OperandOf(s, ins))
    ensures WordAddress(b, s, ins) == ManualWordAddress(s, ins)
      <==> Bit24(ins) == 0 || Bit25(ins) == 0 || Manual(OperandOf(s, ins)).0 < 0x1_0000
    ensures var base, up := ReadR(s, Rn(ins)), Bit23(ins);
      HandlingOffset(base, WordOffset(b, s, ins), up) == HandlingOffset(base, ManualOffset(s, ins), up)
      <==> Bit25(ins) == 0 || Manual(OperandOf(s, ins)).0 < 0x1_0000
  {
    hide ReadR, Manual, OperandOf, HandlingOffset, ValueGuard, Rn, Bit23, Bit24, Bit25;
    OffsetTaken(b, s, ins);
    hide WordOffset, Imm12;
    OffsetExact(ReadR(s, Rn(ins)), Manual(OperandOf(s, ins)).0, Bit23(ins));
  }

  lemma OffsetTaken(b: Build, s: State, ins: Word)
    requires b.shifter || ValueGuard(s, OperandOf(s, ins))
    ensures WordOffset(b, s, ins) == if Bit25(ins) == 0 then Imm12(ins) else Manual(OperandOf(s, ins)).0 % 0x1_0000
  {
    hide ReadR, Manual, ValueGuard, Repaired, WrittenValue, WrittenCarry, Bit25, Rm, Rs, CFlag;
    OperandInFields(s, ins);
    if b.shifter {
      RepairedMeetsManual(b.host, OperandOf(s, ins));
    } else {
      WrittenValueRight(b.host, s, OperandOf(s, ins));
    }
    if Imm12(ins) / 0x10 == 0 {
      Unscaled(ins);
      NotShifted(OperandOf(s, ins));
    }
  }

  lemma Unscaled(ins: Word)
    requires Imm12(ins) / 0x10 == 0
    ensures Bit4(ins) == 0 && ShiftKind(ins) == 0 && ShiftImm(ins) == 0
  {
    var q, r := ins / 0x1000, ins % 0x1000;
    assert ins == q * 0x1000 + r;
    DivModUnique(ins, 0x10, q * 0x100, r);
    DivModUnique(ins, 0x20, q * 0x80, r);
    DivModUnique(ins, 0x80, q * 0x20, r);
    DivModUnique(q * 0x100, 2, q * 0x80, 0);
    DivModUnique(q * 0x80, 4, q * 0x20, 0);
    DivModUnique(q * 0x20, 32, q, 0);
  }

  lemma NotShifted(o: Operand)
    requires !o.byReg && o.imm == 0 && o.kind == 0
    ensures Manual(o).0 == o.rm
  {
  }

  lemma Distinct(x: int, q: nat)
    requires q < 0x1_0000
    ensures Trunc(x) == Trunc(x + q * 0x1_0000) <==> q == 0
  {
  }
}
