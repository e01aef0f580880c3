/** arm_data_processing.c: the sixteen operations and their flags. */
module DataProcessing {
  import opened Words
  import opened Builds
  import opened Registers
  import opened Core
  import opened Fields
  import opened Decode

  /** calcul: what the operation yields, as alu_out for the four tests and as the
      result for the others. Lines 98 and 102 use logical negation. */
  function Alu(op: nat, a: Word, v: Word, c: Flag): Word {
    match op
    case 0 => And(a, v)
    case 1 => XorWord(a, v)
    case 2 => Trunc(a - v)
    case 3 => Trunc(v - a)
    case 4 => Trunc(a + v)
    case 5 => Trunc(a + v + c)
    case 6 => Trunc(a - v - (1 - c))
    case 7 => Trunc(v - a - (1 - c))
    case 8 => And(a, v)
    case 9 => XorWord(a, v)
    case 10 => Trunc(a - v)
    case 11 => Trunc(a + v)
    case 12 => OrWord(a, v)
    case 13 => v
    case 14 => And(a, ToFlag(v == 0))
    case _ => ToFlag(v == 0)
  }

  predicate IsTest(op: nat) {
    8 <= op <= 11
  }

  predicate IsLogical(op: nat) {
    op in {0, 1, 8, 9, 12, 13, 14, 15}
  }

  /** CarryFrom: line 111 writes 2^32, which is 34. */
  function CarryFrom(repaired: bool, a: Word, b: Word): Flag {
    var top := if repaired then 0xFFFF_FFFF else 33;
    ToFlag(a > Trunc(top - b) || b > Trunc(top - a))
  }

  function BorrowFrom(a: Word, b: Word): Flag {
    ToFlag(a < b)
  }

  function OverflowAdd(a: Word, b: Word): Flag {
    ToFlag(Bit31(a) == Bit31(b) && Bit31(a) != Bit31(Trunc(a + b)))
  }

  function OverflowSub(a: Word, b: Word): Flag {
    ToFlag(Bit31(a) != Bit31(b) && Bit31(a) != Bit31(Trunc(a - b)))
  }

  /** Lines 212-223: the sum with the carry taken in. */
  function AdcFlags(repaired: bool, x: Word, y: Word, c: Flag): (Flag, Flag) {
    var c' := if CarryFrom(repaired, x, y) == 1 then 1 else CarryFrom(repaired, Trunc(x + y), c);
    var v1 := OverflowAdd(x, y);
    var v2 := OverflowAdd(Trunc(x + y), if repaired then c else c');
    (c', if repaired then ToFlag(v1 != v2) else if v1 == 1 then 1 else v2)
  }

  /** Lines 225-236: the difference with the borrow taken in. */
  function SbcFlags(repaired: bool, x: Word, y: Word, c: Flag): (Flag, Flag) {
    var b1, b2 := BorrowFrom(x, y), BorrowFrom(Trunc(x - y), 1 - c);
    var c' := if repaired then ToFlag(b1 == 0 && b2 == 0) else ToFlag(b1 == 0 || b2 == 0);
    var v1 := OverflowSub(x, y);
    var v2 := OverflowSub(Trunc(x - y), 1 - (if repaired then c else c'));
    (c', if repaired then ToFlag(v1 != v2) else if v1 == 1 then 1 else v2)
  }

  /** The C and V flags of an arithmetic operation on x and y. */
  function ArithFlags(repaired: bool, op: nat, x: Word, y: Word, c: Flag): (Flag, Flag)
    requires op < 16 && !IsLogical(op)
  {
    match op
    case 3 => (1 - BorrowFrom(y, x), OverflowSub(y, x))
    case 4 => (CarryFrom(repaired, x, y), OverflowAdd(x, y))
    case 5 => AdcFlags(repaired, x, y, c)
    case 6 => SbcFlags(repaired, x, y, c)
    case 7 => SbcFlags(repaired, y, x, c)
    case 11 => (CarryFrom(repaired, x, y), OverflowAdd(x, y))
    case _ => (1 - BorrowFrom(x, y), OverflowSub(x, y))
  }

  function Pack(cpsr: Word, f: Flags): Word {
    f.n * 0x8000_0000 + f.z * 0x4000_0000 + f.c * 0x2000_0000 + f.v * 0x1000_0000
    + cpsr % 0x1000_0000
  }

  /** The two numbers the flag formulas work on: as written, the number of Rn and
      bits 11..0 of the instruction (lines 148-149). */
  function FlagOperands(b: Build, ins: Word, a: Word, v: Word): (Word, Word) {
    if b.operandFlags then (a, v) else (Rn(ins), Imm12(ins))
  }

  /** maj_flags, on the state after Rd is written. Line 184 tests the number of Rd. */
  function NewFlags(b: Build, s: State, ins: Word, alu: Word, carry: Flag, a: Word, v: Word): Flags {
    var op, was := Opcode(ins), FlagsOf(Cpsr(s));
    var (x, y) := FlagOperands(b, ins, a, v);
    if IsTest(op) || (Bit20(ins) == 1 && Rd(ins) != 15) then
      var n := Bit31(if IsTest(op) then alu else ReadR(s, Rd(ins)));
      var z := ToFlag(if IsTest(op) || b.operandFlags then alu == 0 else Rd(ins) == 0);
      if IsLogical(op) then Flags(n, z, carry, was.v)
      else
        var (c, o) := ArithFlags(b.operandFlags, op, x, y, was.c);
        Flags(n, z, c, o)
    else was
  }

  /** The second operand and the shifter's carry. The immediate is not rotated, and
      its carry is bit 31 of a 12-bit field (lines 276-283). */
  function SecondOperand(b: Build, s: State, ins: Word): (Word, Flag) {
    if Bit25(ins) == 1 then
      (Imm8(ins), if Rs(ins) == 0 then CFlag(Cpsr(s)) else 0)
    else Shifted(b, s, OperandOf(s, ins))
  }

  function Executed(b: Build, s: State, ins: Word): State {
    var (v, carry) := SecondOperand(b, s, ins);
    var a := ReadR(s, Rn(ins));
    var alu := Alu(Opcode(ins), a, v, CFlag(Cpsr(s)));
    var s1 := if IsTest(Opcode(ins)) then s else WriteR(b, s, Rd(ins), alu);
    WithCpsr(s1, Pack(Cpsr(s1), NewFlags(b, s1, ins, alu, carry, a, v)))
  }

  /** arm_data_processing. */
  function Processed(b: Build, s: State, ins: Word): State {
    if Condition(Cpsr(s), Cond(ins)) then Executed(b, s, ins) else s
  }

  // ---------- the methods ----------

  const UNDEFINED_INSTRUCTION := 2

  method Calcul(p: ArmCore, ins: Word, value: Word) returns (result: Word, alu_out: Word)
    requires p.Valid()
    ensures var alu := Alu(Opcode(ins), ReadR(p.Snapshot(), Rn(ins)), value, CFlag(Cpsr(p.Snapshot())));
      if IsTest(Opcode(ins)) then alu_out == alu else result == alu
  {
    var cpsr := p.ReadCpsr();
    var c_flag := CFlag(cpsr);
    var rn := p.ReadRegister(Rn(ins));
    result, alu_out := UNDEFINED_INSTRUCTION, 0;
    hide And, XorWord, OrWord, ReadR, CFlag, Opcode, Rn;
    match Opcode(ins)
    case 0 => result := And(rn, value);
    case 1 => result := XorWord(rn, value);
    case 2 => result := Trunc(rn as int - value);
    case 3 => result := Trunc(value as int - rn);
    case 4 => result := Trunc(rn as int + value);
    case 5 => result := Trunc(rn as int + value + c_flag);
    case 6 => result := Trunc(rn as int - value - (1 - c_flag));
    case 7 => result := Trunc(value as int - rn - (1 - c_flag));
    case 8 => alu_out := And(rn, value);
    case 9 => alu_out := XorWord(rn, value);
    case 10 => alu_out := Trunc(rn as int - value);
    case 11 => alu_out := Trunc(rn as int + value);
    case 12 => result := OrWord(rn, value);
    case 13 => result := value;
    case 14 => result := And(rn, ToFlag(value == 0));
    case _ => result := ToFlag(value == 0);
  }

  /** Setting or clearing one of the four top bits. */
  function PutBit(x: Word, i: nat, flag: Flag): Word
    requires i < 32
  {
    if flag == 1 then SetBit(x, i) else ClrBit(x, i)
  }

  lemma TopBits(x: Word)
    ensures Pow2(28) == 0x1000_0000 && Pow2(29) == 0x2000_0000
    ensures Pow2(30) == 0x4000_0000 && Pow2(31) == 0x8000_0000
    ensures Bit(x, 31) == NFlag(x) && Bit(x, 30) == ZFlag(x)
    ensures Bit(x, 29) == CFlag(x) && Bit(x, 28) == VFlag(x)
  {
    Pow2Of32();
    assert Pow2(4) == 16;
    Pow2Add(28, 4);
  }

  lemma FlagsSplit(x: Word)
    ensures x == Pack(x, FlagsOf(x))
  {
    TopOfNibble(x);
    NibbleSum(x / 0x1000_0000);
    hide FlagsOf;
  }

  lemma NibbleSum(top: nat)
    requires top < 16
    ensures top == top / 8 * 8 + top / 4 % 2 * 4 + top / 2 % 2 * 2 + top % 2
  {
  }

  lemma PutN(x: Word, f: Flag)
    ensures PutBit(x, 31, f) == Pack(x, FlagsOf(x).(n := f))
  {
    TopBits(x);
    FlagsSplit(x);
    hide Bit, Pow2;
  }

  lemma PutZ(x: Word, f: Flag)
    ensures PutBit(x, 30, f) == Pack(x, FlagsOf(x).(z := f))
  {
    TopBits(x);
    FlagsSplit(x);
    hide Bit, Pow2;
  }

  lemma PutC(x: Word, f: Flag)
    ensures PutBit(x, 29, f) == Pack(x, FlagsOf(x).(c := f))
  {
    TopBits(x);
    FlagsSplit(x);
    hide Bit, Pow2;
  }

  lemma PutV(x: Word, f: Flag)
    ensures PutBit(x, 28, f) == Pack(x, FlagsOf(x).(v := f))
  {
    TopBits(x);
    FlagsSplit(x);
    hide Bit, Pow2;
  }

  /** Packing replaces the four flags and keeps the other bits. */
  lemma PackPack(x: Word, f: Flags, g: Flags)
    ensures FlagsOf(Pack(x, f)) == f
    ensures Pack(Pack(x, f), g) == Pack(x, g)
  {
    PackSplits(x, f);
    TopOfNibble(Pack(x, f));
    Nibble(f);
    assert Pack(Pack(x, f), g) - Pack(x, g) == Pack(x, f) % 0x1000_0000 - x % 0x1000_0000;
    hide Pack, FlagsOf;
  }

  function Top(f: Flags): nat {
    8 * f.n + 4 * f.z + 2 * f.c + f.v
  }

  lemma PackSplits(x: Word, f: Flags)
    ensures Pack(x, f) / 0x1000_0000 == Top(f) && Pack(x, f) % 0x1000_0000 == x % 0x1000_0000
  {
    DivModUnique(Pack(x, f), 0x1000_0000, Top(f), x % 0x1000_0000);
  }

  lemma Nibble(f: Flags)
    ensures Flags(Top(f) / 8, Top(f) / 4 % 2, Top(f) / 2 % 2, Top(f) % 2) == f
  {
    DivModUnique(Top(f), 8, f.n, 4 * f.z + 2 * f.c + f.v);
    DivModUnique(Top(f), 4, 2 * f.n + f.z, 2 * f.c + f.v);
    DivModUnique(Top(f), 2, 4 * f.n + 2 * f.z + f.c, f.v);
    DivModUnique(2 * f.n + f.z, 2, f.n, f.z);
    DivModUnique(4 * f.n + 2 * f.z + f.c, 2, 2 * f.n + f.z, f.c);
    hide Top;
  }

  lemma TopOfNibble(y: Word)
    ensures var top := y / 0x1000_0000;
      FlagsOf(y) == Flags(top / 8, top / 4 % 2, top / 2 % 2, top % 2)
  {
  }

  /** The update of the CPSR copy at lines 258-261. */
  method PutFlags(cpsr: Word, f: Flags) returns (r: Word)
    ensures r == Pack(cpsr, f)
  {
    hide Pack, FlagsOf, PutBit;
    r := PutBit(cpsr, 31, f.n);
    PutN(cpsr, f.n);
    ghost var g := FlagsOf(cpsr).(n := f.n);
    PackPack(cpsr, g, g);
    PutZ(r, f.z);
    PackPack(cpsr, g, g.(z := f.z));
    r := PutBit(r, 30, f.z);
    g := g.(z := f.z);
    PackPack(cpsr, g, g.(c := f.c));
    PutC(r, f.c);
    r := PutBit(r, 29, f.c);
    g := g.(c := f.c);
    PackPack(cpsr, g, g.(v := f.v));
    PutV(r, f.v);
    r := PutBit(r, 28, f.v);
  }

  /** maj_flags. The operand values rn and value are used by the repair only. */
  method MajFlags(p: ArmCore, ins: Word, alu_out: Word, carry: Flag, rn: Word, value: Word)
    requires p.Valid()
    modifies p.reg.regs
    ensures var s := old(p.Snapshot());
      p.Snapshot() == WithCpsr(s, Pack(Cpsr(s), NewFlags(p.build, s, ins, alu_out, carry, rn, value)))
  {
    hide Pack, ReadR, CFlag, NFlag, ZFlag, VFlag, Bit31, Rn, Rd, Bit20, Imm12, HasSpsr;
    hide BorrowFrom, CarryFrom, OverflowAdd, OverflowSub, AdcFlags, SbcFlags;
    var repaired := p.build.operandFlags;
    var x, y := if repaired then rn else Rn(ins), if repaired then value else Imm12(ins);
    var cpsr := p.ReadCpsr();
    var v_flag, c_flag, z_flag, n_flag := VFlag(cpsr), CFlag(cpsr), ZFlag(cpsr), NFlag(cpsr);
    var op, s_bit, rd := Opcode(ins), Bit20(ins), Rd(ins);
    if op == 8 || op == 9 {
      n_flag, z_flag, c_flag := Bit31(alu_out), ToFlag(alu_out == 0), carry;
    } else if op == 10 {
      n_flag, z_flag := Bit31(alu_out), ToFlag(alu_out == 0);
      c_flag, v_flag := 1 - BorrowFrom(x, y), OverflowSub(x, y);
    } else if op == 11 {
      n_flag, z_flag := Bit31(alu_out), ToFlag(alu_out == 0);
      c_flag, v_flag := CarryFrom(repaired, x, y), OverflowAdd(x, y);
    } else if s_bit == 1 && rd == 15 {
      var has := p.reg.CurrentModeHasSpsr();
      if has {
        var spsr := p.reg.ReadSpsrRegister();
        p.WriteCpsr(spsr);
      }
    } else if s_bit == 1 {
      var result := p.ReadRegister(rd);
      n_flag := Bit31(result);
      z_flag := ToFlag(if repaired then alu_out == 0 else rd == 0);
      c_flag, v_flag := ByOperation(repaired, op, x, y, carry, c_flag, v_flag);
    }
    var r := PutFlags(cpsr, Flags(n_flag, z_flag, c_flag, v_flag));
    p.WriteCpsr(r);
    assert p.Snapshot().regs == old(p.Snapshot()).regs[CPSR := r];
  }

  /** The inner switch, lines 186-253. */
  method ByOperation(repaired: bool, op: nat, x: Word, y: Word, carry: Flag, c: Flag, v: Flag)
    returns (c_flag: Flag, v_flag: Flag)
    requires op < 16 && !IsTest(op)
    ensures (c_flag, v_flag) == if IsLogical(op) then (carry, v) else ArithFlags(repaired, op, x, y, c)
  {
    hide BorrowFrom, CarryFrom, OverflowAdd, OverflowSub, AdcFlags, SbcFlags;
    c_flag, v_flag := c, v;
    match op
    case 2 => c_flag, v_flag := 1 - BorrowFrom(x, y), OverflowSub(x, y);
    case 3 => c_flag, v_flag := 1 - BorrowFrom(y, x), OverflowSub(y, x);
    case 4 => c_flag, v_flag := CarryFrom(repaired, x, y), OverflowAdd(x, y);
    case 5 => c_flag, v_flag := Adc(repaired, x, y, c_flag);
    case 6 => c_flag, v_flag := Sbc(repaired, x, y, c_flag);
    case 7 => c_flag, v_flag := Sbc(repaired, y, x, c_flag);
    case _ => c_flag := carry;
  }

  /** Lines 212-223, with C updated before V reads it. */
  method Adc(repaired: bool, x: Word, y: Word, c: Flag) returns (c_flag: Flag, v_flag: Flag)
    ensures (c_flag, v_flag) == AdcFlags(repaired, x, y, c)
  {
    hide CarryFrom, OverflowAdd, Trunc;
    if CarryFrom(repaired, x, y) == 1 {
      c_flag := CarryFrom(repaired, x, y);
    } else {
      c_flag := CarryFrom(repaired, Trunc(x + y), c);
    }
    if repaired {
      v_flag := ToFlag(OverflowAdd(x, y) != OverflowAdd(Trunc(x + y), c));
    } else if OverflowAdd(x, y) == 1 {
      v_flag := OverflowAdd(x, y);
    } else {
      v_flag := OverflowAdd(Trunc(x + y), c_flag);
    }
  }

  /** Lines 225-236 and, with the operands exchanged, 238-249. */
  method Sbc(repaired: bool, x: Word, y: Word, c: Flag) returns (c_flag: Flag, v_flag: Flag)
    ensures (c_flag, v_flag) == SbcFlags(repaired, x, y, c)
  {
    hide BorrowFrom, OverflowSub, Trunc;
    if repaired {
      c_flag := ToFlag(BorrowFrom(x, y) == 0 && BorrowFrom(Trunc(x - y), 1 - c) == 0);
    } else if BorrowFrom(x, y) == 0 {
      c_flag := 1 - BorrowFrom(x, y);
    } else {
      c_flag := 1 - BorrowFrom(Trunc(x - y), 1 - c);
    }
    if repaired {
      v_flag := ToFlag(OverflowSub(x, y) != OverflowSub(Trunc(x - y), 1 - c));
    } else if OverflowSub(x, y) == 1 {
      v_flag := OverflowSub(x, y);
    } else {
      v_flag := OverflowSub(Trunc(x - y), 1 - c_flag);
    }
  }

  method ArmDataProcessing(p: ArmCore, ins: Word)
    requires p.Valid()
    modifies p.reg.regs
    ensures p.Snapshot() == Processed(p.build, old(p.Snapshot()), ins)
  {
    hide Condition, Pack, ReadR, Alu, NewFlags, Shifted, OperandOf, CFlag, Opcode, Rn, Rd, Rs, Imm8, Bit25;
    var cpsr := p.ReadCpsr();
    if !Condition(cpsr, Cond(ins)) {
      return;
    }
    ghost var s := p.Snapshot();
    var value: Word, carry: Flag := 0, 0;
    if Bit25(ins) == 1 {
      value := Imm8(ins);
      if Rs(ins) == 0 {
        carry := CFlag(cpsr);
      } else {
        carry := 0;
      }
    } else {
      value, carry := Decode.Shift(p, ins);
    }
    var rn := p.ReadRegister(Rn(ins));
    var result, alu_out := Calcul(p, ins, value);
    if !IsTest(Opcode(ins)) {
      p.WriteRegister(Rd(ins), result);
      alu_out := result;
    }
    MajFlags(p, ins, alu_out, carry, rn, value);
  }
}
