/** The flags against exact integer arithmetic: which comparisons the condition
    codes decide, and what a logical operation leaves in them. */
module FlagLaws {
  import opened Words
  import opened Builds
  import opened Registers
  import opened RegisterLaws
  import opened Core
  import opened Fields
  import opened Decode
  import opened ShifterLaws
  import opened DataProcessing

  // ---------- the flags of arithmetic on integers ----------

  predicate IsArith(op: nat) {
    op < 16 && !IsLogical(op)
  }

  /** The exact result of an arithmetic operation on integers. */
  function Exact(op: nat, x: int, y: int, c: Flag): int {
    match op
    case 3 => y - x
    case 4 => x + y
    case 5 => x + y + c
    case 6 => x - y - (1 - c)
    case 7 => y - x - (1 - c)
    case 11 => x + y
    case _ => x - y
  }

  predicate Adds(op: nat) {
    op in {4, 5, 11}
  }

  /** C: the unsigned result left the word upwards, or did not leave it downwards.
      V: the signed result left the word. */
  function ManualC(op: nat, x: Word, y: Word, c: Flag): Flag {
    ToFlag(if Adds(op) then Exact(op, x, y, c) >= 0x1_0000_0000 else Exact(op, x, y, c) >= 0)
  }

  predicate Overflows(op: nat, x: Word, y: Word, c: Flag) {
    !(-0x8000_0000 <= Exact(op, Signed(x), Signed(y), c) < 0x8000_0000)
  }

  lemma ResultIsExact(op: nat, x: Word, y: Word, c: Flag)
    requires IsArith(op)
    ensures Alu(op, x, y, c) == Trunc(Exact(op, x, y, c))
  {
  }

  /** The repaired formulas are the flags of exact arithmetic. */
  lemma RepairedFlagsMeetManual(op: nat, x: Word, y: Word, c: Flag)
    requires IsArith(op)
    ensures ArithFlags(true, op, x, y, c) == (ManualC(op, x, y, c), ToFlag(Overflows(op, x, y, c)))
  {
    if Adds(op) {
      AddFlags(x, y, c);
    } else {
      SubFlags(x, y, c);
      SubFlags(y, x, c);
    }
    hide AdcFlags, SbcFlags, CarryFrom, OverflowAdd, OverflowSub, BorrowFrom;
  }

  lemma AddFlags(x: Word, y: Word, c: Flag)
    ensures AdcFlags(true, x, y, c) == (ManualC(5, x, y, c), ToFlag(Overflows(5, x, y, c)))
    ensures CarryFrom(true, x, y) == ManualC(4, x, y, c)
    ensures OverflowAdd(x, y) == ToFlag(Overflows(4, x, y, c))
  {
    hide OverflowAdd, CarryFrom, Trunc, Signed, Bit31;
    AddOverflow(x, y);
    AddOverflow(Trunc(x + y), c);
    assert Signed(c) == c by { SmallSigned(c); }
  }

  lemma SmallSigned(c: Flag)
    ensures Signed(c) == c
  {
  }

  /** The overflow of an addition of words, and what the wrapped sum is, unsigned and
      signed. */
  lemma AddOverflow(x: Word, y: Word)
    ensures OverflowAdd(x, y) == ToFlag(!InWord(Signed(x) + Signed(y)))
    ensures CarryFrom(true, x, y) == ToFlag(x + y >= 0x1_0000_0000)
    ensures Trunc(x + y) == if x + y >= 0x1_0000_0000 then x + y - 0x1_0000_0000 else x + y
    ensures Signed(Trunc(x + y)) == Wrapped(Signed(x) + Signed(y))
  {
  }

  predicate InWord(d: int) {
    -0x8000_0000 <= d < 0x8000_0000
  }

  /** A sum or difference of two signed words, wrapped. */
  function Wrapped(d: int): int {
    if d < -0x8000_0000 then d + 0x1_0000_0000 else if d >= 0x8000_0000 then d - 0x1_0000_0000 else d
  }

  lemma SubFlags(x: Word, y: Word, c: Flag)
    ensures SbcFlags(true, x, y, c) == (ManualC(6, x, y, c), ToFlag(Overflows(6, x, y, c)))
    ensures 1 - BorrowFrom(x, y) == ManualC(2, x, y, c)
    ensures OverflowSub(x, y) == ToFlag(Overflows(2, x, y, c))
  {
    hide OverflowSub, Trunc, Signed, Bit31;
    SubOverflow(x, y);
    SubOverflow(Trunc(x - y), 1 - c);
    assert Signed(1 - c) == 1 - c by { SmallSigned(1 - c); }
  }

  lemma SubOverflow(x: Word, y: Word)
    ensures OverflowSub(x, y) == ToFlag(!InWord(Signed(x) - Signed(y)))
    ensures Trunc(x - y) == if x < y then x - y + 0x1_0000_0000 else x - y
    ensures Signed(Trunc(x - y)) == Wrapped(Signed(x) - Signed(y))
  {
  }

  // ---------- the flags an instruction leaves ----------

  /** An instruction that sets the flags: one of the four tests, or one with the S bit
      whose destination is not the PC. */
  predicate SetsFlags(s: State, ins: Word) {
    && (IsTest(Opcode(ins)) || (Bit20(ins) == 1 && Rd(ins) != 15))
    && Known(ModeOf(s))
  }

  predicate ArithSets(s: State, ins: Word) {
    SetsFlags(s, ins) && IsArith(Opcode(ins))
  }

  function FirstOf(s: State, ins: Word): Word {
    ReadR(s, Rn(ins))
  }

  function SecondOf(b: Build, s: State, ins: Word): Word {
    SecondOperand(b, s, ins).0
  }

  function ResultOf(b: Build, s: State, ins: Word): Word {
    Alu(Opcode(ins), FirstOf(s, ins), SecondOf(b, s, ins), CFlag(Cpsr(s)))
  }

  lemma PackKeepsMode(cpsr: Word, f: Flags)
    ensures Pack(cpsr, f) % 32 == cpsr % 32
    ensures FlagsOf(Pack(cpsr, f)) == f
  {
    PackPack(cpsr, f, f);
    PackSplits(cpsr, f);
    LowFive(Pack(cpsr, f));
    LowFive(cpsr);
    hide Pack, FlagsOf;
  }

  /** The four flags an instruction leaves: a logical one takes C from the shifter and
      keeps V. */
  function Leaves(b: Build, s: State, ins: Word): Flags {
    var op, result, c := Opcode(ins), ResultOf(b, s, ins), CFlag(Cpsr(s));
    var (x, y) := FlagOperands(b, ins, FirstOf(s, ins), SecondOf(b, s, ins));
    var (carry, overflow) := if IsLogical(op) then (SecondOperand(b, s, ins).1, VFlag(Cpsr(s)))
                             else ArithFlags(b.operandFlags, op, x, y, c);
    Flags(Bit31(result), ToFlag(if IsTest(op) || b.operandFlags then result == 0 else Rd(ins) == 0), carry, overflow)
  }

  lemma FlagsLeft(b: Build, s: State, ins: Word)
    requires SetsFlags(s, ins)
    ensures FlagsOf(Cpsr(Executed(b, s, ins))) == Leaves(b, s, ins)
    ensures !IsTest(Opcode(ins)) ==> ReadR(Executed(b, s, ins), Rd(ins)) == ResultOf(b, s, ins)
    ensures ModeOf(Executed(b, s, ins)) == ModeOf(s)
  {
    hide SecondOperand, Alu, ArithFlags, Pack, FlagsOf, Bit31, CFlag, NFlag, ZFlag, VFlag, Opcode;
    var result := ResultOf(b, s, ins);
    var s1 := if IsTest(Opcode(ins)) then s else WriteR(b, s, Rd(ins), result);
    WriteKeepsCpsr(b.loneBank, s.regs, Rd(ins), result);
    ReadWritten(b.loneBank, s.regs, Rd(ins), result);
    var f := NewFlags(b, s1, ins, result, SecondOperand(b, s, ins).1, FirstOf(s, ins), SecondOf(b, s, ins));
    assert Executed(b, s, ins) == WithCpsr(s1, Pack(Cpsr(s1), f));
    PackKeepsMode(Cpsr(s1), f);
    FlagsFields(Cpsr(s));
    CpsrIsNoRegister(s1, Pack(Cpsr(s1), f), Rd(ins));
    hide Read, Write, NewFlags;
  }

  lemma FlagsFields(cpsr: Word)
    ensures FlagsOf(cpsr) == Flags(NFlag(cpsr), ZFlag(cpsr), CFlag(cpsr), VFlag(cpsr))
  {
  }

  lemma CpsrIsNoRegister(s: State, cpsr: Word, reg: nat)
    requires cpsr % 32 == ModeOf(s) && reg <= 15
    ensures ReadR(WithCpsr(s, cpsr), reg) == ReadR(s, reg)
  {
    hide PcSeen;
  }

  /** The C the written formulas leave: they see a register number and bits 11..0. */
  function WrittenC(op: nat, n: nat, raw: nat, c: Flag): Flag {
    ToFlag(match op
      case 3 => raw >= n
      case 4 => n + raw > 33
      case 5 => n + raw + c > 33
      case 6 => true
      case 7 => true
      case 11 => n + raw > 33
      case _ => n >= raw)
  }

  lemma WrittenFlagsClosed(op: nat, n: Word, raw: Word, c: Flag)
    requires IsArith(op) && n < 16 && raw < 0x1000
    ensures ArithFlags(false, op, n, raw, c) == (WrittenC(op, n, raw, c), 0)
  {
    SmallOperands(n, raw);
    SmallSbc(n, raw, c);
    SmallSbc(raw, n, c);
    SmallAdc(n, raw, c);
    hide AdcFlags, SbcFlags, OverflowAdd, OverflowSub, CarryFrom;
  }

  /** Small operands never overflow; their written carry is a sum above 33. */
  lemma SmallOperands(x: Word, y: Word)
    requires x < 0x2000 && y < 0x2000
    ensures OverflowAdd(x, y) == 0 && OverflowSub(x, y) == 0 && OverflowSub(y, x) == 0
    ensures x <= 33 || y <= 33 ==> CarryFrom(false, x, y) == ToFlag(x + y > 33)
  {
  }

  lemma SmallAdc(x: Word, y: Word, c: Flag)
    requires x < 16 && y < 0x1000
    ensures AdcFlags(false, x, y, c) == (ToFlag(x + y + c > 33), 0)
  {
    hide OverflowAdd, OverflowSub, CarryFrom, Trunc;
    SmallOperands(x, y);
    SmallTrunc(x + y);
    SmallOperands(x + y, c);
    SmallOperands(x + y, 0);
    SmallOperands(x + y, 1);
  }

  lemma SmallSbc(x: Word, y: Word, c: Flag)
    requires x < 0x1000 && y < 0x1000
    ensures SbcFlags(false, x, y, c) == (1, 0)
  {
    SmallOperands(x, y);
    SubOverflow(x, y);
    var d := Trunc(x - y);
    hide Trunc, OverflowSub, Bit31;
    assert d < 0x1000 || d > 0xFFFF_0000;
    NearZeroMinusBit(d, 0);
    NearZeroMinusBit(d, 1);
  }

  lemma NearZeroMinusBit(d: Word, c: Flag)
    requires d < 0x1000 || d > 0xFFFF_0000
    ensures OverflowSub(d, c) == 0
  {
  }

  /** As written an arithmetic instruction always clears V, N is always right, Z is
      right for the comparisons and otherwise when the result is zero exactly if Rd
      is r0, V is right exactly when the operation does not overflow, and C when the
      fields of the instruction happen to order like its operands. */
  lemma WrittenFlagsExact(b: Build, s: State, ins: Word)
    requires !b.operandFlags && ArithSets(s, ins)
    ensures var op, result := Opcode(ins), ResultOf(b, s, ins);
      var x, y, c := FirstOf(s, ins), SecondOf(b, s, ins), CFlag(Cpsr(s));
      var f := FlagsOf(Cpsr(Executed(b, s, ins)));
      && f.v == 0
      && f.n == Bit31(Trunc(Exact(op, x, y, c)))
      && (f.z == ToFlag(result == 0) <==> IsTest(op) || (result == 0 <==> Rd(ins) == 0))
      && (f.v == ToFlag(Overflows(op, x, y, c)) <==> !Overflows(op, x, y, c))
      && (f.c == ManualC(op, x, y, c) <==> WrittenC(op, Rn(ins), Imm12(ins), c) == ManualC(op, x, y, c))
  {
    FlagsLeft(b, s, ins);
    WrittenFlagsClosed(Opcode(ins), Rn(ins), Imm12(ins), CFlag(Cpsr(s)));
    ResultIsExact(Opcode(ins), FirstOf(s, ins), SecondOf(b, s, ins), CFlag(Cpsr(s)));
    hide Executed, SecondOf, FirstOf, ResultOf, ArithFlags, FlagsOf, Bit31, CFlag, WrittenC, ManualC;
    hide Overflows, Alu, Exact;
  }

  /** With the operand values in place all four flags are those of the exact result. */
  lemma RepairedFlagsExact(b: Build, s: State, ins: Word)
    requires b.operandFlags && ArithSets(s, ins)
    ensures var op, result := Opcode(ins), ResultOf(b, s, ins);
      var x, y, c := FirstOf(s, ins), SecondOf(b, s, ins), CFlag(Cpsr(s));
      FlagsOf(Cpsr(Executed(b, s, ins))) ==
        Flags(Bit31(result), ToFlag(result == 0), ManualC(op, x, y, c), ToFlag(Overflows(op, x, y, c)))
  {
    FlagsLeft(b, s, ins);
    RepairedFlagsMeetManual(Opcode(ins), FirstOf(s, ins), SecondOf(b, s, ins), CFlag(Cpsr(s)));
    hide Executed, SecondOf, FirstOf, ResultOf, ArithFlags, FlagsOf, Bit31, CFlag, ManualC, Overflows;
  }

  // ---------- logical operations ----------

  /** A logical instruction leaves the shifter's carry in C and V as it was, as written;
      Z is right for the tests and otherwise, like for arithmetic, exactly when the
      result is zero if and only if Rd is r0, or with the repair. */
  lemma LogicalFlagsExact(b: Build, s: State, ins: Word)
    requires SetsFlags(s, ins) && IsLogical(Opcode(ins))
    ensures var result, f := ResultOf(b, s, ins), FlagsOf(Cpsr(Executed(b, s, ins)));
      && f.n == Bit31(result) && f.c == SecondOperand(b, s, ins).1 && f.v == VFlag(Cpsr(s))
      && (f.z == ToFlag(result == 0) <==>
          IsTest(Opcode(ins)) || b.operandFlags || (result == 0 <==> Rd(ins) == 0))
  {
    FlagsLeft(b, s, ins);
    hide Executed, SecondOperand, ResultOf, FlagsOf, Bit31, VFlag, Opcode, Rd;
  }

  /** With the shifter and the operands repaired, a logical instruction on a shifted
      register computes with the operand of section A5.1 and leaves its shifter carry,
      the last bit shifted out, in C. */
  lemma RepairedLogicalFlags(b: Build, s: State, ins: Word)
    requires b.operandFlags && b.shifter && SetsFlags(s, ins) && IsLogical(Opcode(ins)) && Bit25(ins) == 0
    ensures var (v, carry) := Manual(OperandOf(s, ins));
      var result := Alu(Opcode(ins), FirstOf(s, ins), v, CFlag(Cpsr(s)));
      && FlagsOf(Cpsr(Executed(b, s, ins))) == Flags(Bit31(result), ToFlag(result == 0), carry, VFlag(Cpsr(s)))
      && (!IsTest(Opcode(ins)) ==> ReadR(Executed(b, s, ins), Rd(ins)) == result)
  {
    FlagsLeft(b, s, ins);
    OperandInFields(s, ins);
    RepairedMeetsManual(b.host, OperandOf(s, ins));
    hide Executed, Repaired, Manual, OperandOf, FlagsOf, Bit31, VFlag, CFlag, Opcode, Rd, FirstOf, Alu, ReadR;
    hide SetsFlags;
  }

  lemma OperandInFields(s: State, ins: Word)
    ensures InFields(OperandOf(s, ins))
  {
    hide ReadR;
  }

  /** As written the C after a logical instruction on a shifted register is the last bit
      shifted out, on every host, exactly under the shifter's guard. */
  lemma WrittenLogicalCarryExact(b: Build, s: State, ins: Word)
    requires !b.shifter && SetsFlags(s, ins) && IsLogical(Opcode(ins)) && Bit25(ins) == 0
    ensures (forall h: Host :: CFlag(Cpsr(Executed(b.(host := h), s, ins))) == Manual(OperandOf(s, ins)).1)
            <==> CarryGuard(s, OperandOf(s, ins))
  {
    var o := OperandOf(s, ins);
    forall h: Host
      ensures CFlag(Cpsr(Executed(b.(host := h), s, ins))) == WrittenCarry(h, s, o, WrittenValue(h, s, o))
    {
      var b' := b.(host := h);
      LogicalFlagsExact(b', s, ins);
      FlagsFields(Cpsr(Executed(b', s, ins)));
      hide Executed, WrittenCarry, WrittenValue, OperandOf, ResultOf, FlagsOf, CFlag, IsLogical, SetsFlags;
    }
    OperandInFields(s, ins);
    WrittenCarryExact(s, o);
    hide Executed, WrittenCarry, WrittenValue, CarryGuard, Manual, OperandOf, CFlag, InFields;
  }

  // ---------- the sign and overflow codes ----------

  /** Section A3.2 on the bits of the CPSR; HI and the codes that compare N with V are
      decided by the comparisons. */
  lemma ConditionBits(cpsr: Word)
    ensures Condition(cpsr, 0) <==> cpsr / 0x4000_0000 % 2 == 1
    ensures Condition(cpsr, 1) <==> cpsr / 0x4000_0000 % 2 == 0
    ensures Condition(cpsr, 2) <==> cpsr / 0x2000_0000 % 2 == 1
    ensures Condition(cpsr, 3) <==> cpsr / 0x2000_0000 % 2 == 0
    ensures Condition(cpsr, 4) <==> cpsr >= 0x8000_0000
    ensures Condition(cpsr, 5) <==> cpsr < 0x8000_0000
    ensures Condition(cpsr, 6) <==> cpsr / 0x1000_0000 % 2 == 1
    ensures Condition(cpsr, 7) <==> cpsr / 0x1000_0000 % 2 == 0
    ensures Condition(cpsr, 14) && !Condition(cpsr, 15)
  {
  }

  /** After any instruction that sets the flags MI passes for a negative result and PL
      for the others, as written. */
  lemma SignCodes(b: Build, s: State, ins: Word)
    requires SetsFlags(s, ins)
    ensures var s' := Executed(b, s, ins);
      && (Condition(Cpsr(s'), 4) <==> Signed(ResultOf(b, s, ins)) < 0)
      && (Condition(Cpsr(s'), 5) <==> Signed(ResultOf(b, s, ins)) >= 0)
  {
    hide Executed, ResultOf, FlagsOf, ArithFlags, Opcode, Rd, SecondOperand, FirstOf, SecondOf, CFlag, VFlag;
    FlagsLeft(b, s, ins);
    SignBit(ResultOf(b, s, ins));
    hide Bit31, Signed;
  }

  lemma SignBit(w: Word)
    ensures Bit31(w) == 1 <==> Signed(w) < 0
  {
  }

  /** After arithmetic VS passes exactly when the signed result leaves the word, with the
      flags repaired, and as written never. */
  lemma OverflowCodes(b: Build, s: State, ins: Word)
    requires ArithSets(s, ins)
    ensures var s', x, y := Executed(b, s, ins), FirstOf(s, ins), SecondOf(b, s, ins);
      && (Condition(Cpsr(s'), 6) <==> b.operandFlags && Overflows(Opcode(ins), x, y, CFlag(Cpsr(s))))
      && (Condition(Cpsr(s'), 7) <==> !Condition(Cpsr(s'), 6))
  {
    hide Executed, ResultOf, FlagsOf, Opcode, FirstOf, SecondOf, CFlag, Overflows, ManualC, WrittenC, Bit31, ArithSets;
    hide Exact, Trunc;
    if b.operandFlags {
      RepairedFlagsExact(b, s, ins);
    } else {
      WrittenFlagsExact(b, s, ins);
    }
  }

  // ---------- the PC as destination ----------

  /** With S and the PC as destination the manual copies the SPSR to the CPSR. Line 262
      writes back the CPSR read before line 181 restored it, so the CPSR stays: right
      exactly when the two are equal. */
  lemma RestoreExact(b: Build, s: State, ins: Word)
    requires !IsTest(Opcode(ins)) && Bit20(ins) == 1 && Rd(ins) == 15 && HasSpsr(ModeOf(s))
    ensures Cpsr(Executed(b, s, ins)) == Cpsr(s)
    ensures Cpsr(Executed(b, s, ins)) == s.regs[Cell(ModeOf(s), SPSR)] <==> s.regs[Cell(ModeOf(s), SPSR)] == Cpsr(s)
  {
    var alu := ResultOf(b, s, ins);
    WriteKeepsCpsr(b.loneBank, s.regs, 15, alu);
    FlagsSplit(Cpsr(s));
    hide SecondOperand, Alu, Pack, FlagsOf, Write, Opcode, Bit20, ArithFlags, Bit31, CFlag, ReadR;
  }

  // ---------- comparisons ----------

  /** What each condition code asks about the operands of a comparison. */
  predicate Order(cond: nat, x: Word, y: Word) {
    match cond
    case 0 => x == y
    case 1 => x != y
    case 2 => x >= y
    case 3 => x < y
    case 8 => x > y
    case 9 => x <= y
    case 10 => Signed(x) >= Signed(y)
    case 11 => Signed(x) < Signed(y)
    case 12 => Signed(x) > Signed(y)
    case _ => Signed(x) <= Signed(y)
  }

  predicate IsOrder(cond: nat) {
    cond <= 3 || 8 <= cond <= 13
  }

  /** When a condition code decides the order after a written CMP whose Rn field is n
      and whose bits 11..0 are raw. */
  predicate WrittenDecides(cond: nat, x: Word, y: Word, n: nat, raw: nat) {
    if cond <= 1 then true
    else if cond <= 3 then n >= raw <==> x >= y
    else if cond == 8 then x != y && (n >= raw <==> x > y)
    else if cond == 9 then x == y || (n >= raw <==> x > y)
    else -0x8000_0000 <= Signed(x) - Signed(y) < 0x8000_0000
  }

  /** After CMP with the flags repaired every order but HI is decided; HI, which
      line 108 lets pass on equality, is decided exactly for unequal operands. */
  lemma RepairedCompareDecides(b: Build, s: State, ins: Word, cond: nat)
    requires b.operandFlags && ArithSets(s, ins) && Opcode(ins) == 10 && IsOrder(cond)
    ensures var x, y := FirstOf(s, ins), SecondOf(b, s, ins);
      Condition(Cpsr(Executed(b, s, ins)), cond) == Order(cond, x, y) <==> cond != 8 || x != y
  {
    hide Executed, SecondOf, FirstOf, FlagsOf, Order, Holds, ManualC, Overflows, CFlag, Bit31, Trunc;
    RepairedFlagsExact(b, s, ins);
    assert ResultOf(b, s, ins) == Trunc(FirstOf(s, ins) - SecondOf(b, s, ins));
    hide SetsFlags, ResultOf;
    DecidedByValues(cond, FirstOf(s, ins), SecondOf(b, s, ins), CFlag(Cpsr(s)));
  }

  /** Section A3.2: HI is C and not Z; the code has the other codes right. */
  predicate ManualHolds(cond: nat, f: Flags) {
    if cond == 8 then f.c == 1 && f.z == 0 else Holds(cond, f)
  }

  /** With HI so read, after CMP with the flags repaired every order is decided. */
  lemma ManualCompareDecides(b: Build, s: State, ins: Word, cond: nat)
    requires b.operandFlags && ArithSets(s, ins) && Opcode(ins) == 10 && IsOrder(cond)
    ensures ManualHolds(cond, FlagsOf(Cpsr(Executed(b, s, ins)))) <==> Order(cond, FirstOf(s, ins), SecondOf(b, s, ins))
  {
    hide Executed, SecondOf, FirstOf, FlagsOf, Order, Holds, ManualC, Overflows, CFlag, Bit31, Trunc, ManualHolds;
    RepairedFlagsExact(b, s, ins);
    assert ResultOf(b, s, ins) == Trunc(FirstOf(s, ins) - SecondOf(b, s, ins));
    hide ArithSets, ResultOf;
    ManualByValues(cond, FirstOf(s, ins), SecondOf(b, s, ins), CFlag(Cpsr(s)));
  }

  lemma ManualByValues(cond: nat, x: Word, y: Word, c: Flag)
    requires IsOrder(cond)
    ensures var f := Flags(Bit31(Trunc(x - y)), ToFlag(Trunc(x - y) == 0),
                           ManualC(10, x, y, c), ToFlag(Overflows(10, x, y, c)));
      ManualHolds(cond, f) <==> Order(cond, x, y)
  {
    SignOfDifference(x, y);
    hide Bit31, Trunc, Signed;
  }

  /** And every even code up to LE is the opposite of the odd one after it. */
  lemma ManualComplements(f: Flags, k: nat)
    requires k <= 6
    ensures ManualHolds(2 * k, f) != ManualHolds(2 * k + 1, f)
  {
  }

  /** The two readings of HI differ exactly when Z is set. */
  lemma HiExact(f: Flags, cond: nat)
    ensures Holds(cond, f) == ManualHolds(cond, f) <==> cond != 8 || f.z == 0
  {
  }

  lemma DecidedByValues(cond: nat, x: Word, y: Word, c: Flag)
    requires IsOrder(cond)
    ensures Holds(cond, Flags(Bit31(Trunc(x - y)), ToFlag(Trunc(x - y) == 0),
                              ManualC(10, x, y, c), ToFlag(Overflows(10, x, y, c)))) == Order(cond, x, y)
      <==> cond != 8 || x != y
  {
    SignOfDifference(x, y);
    hide Bit31, Trunc, Signed;
  }

  /** The sign of a wrapped difference, corrected by the overflow. */
  lemma SignOfDifference(x: Word, y: Word)
    ensures Trunc(x - y) == 0 <==> x == y
    ensures Signed(x) == Signed(y) <==> x == y
    ensures (Bit31(Trunc(x - y)) == 1 <==>
             (Signed(x) < Signed(y) <==> -0x8000_0000 <= Signed(x) - Signed(y) < 0x8000_0000))
  {
  }

  lemma WrittenCompareFlags(b: Build, s: State, ins: Word)
    requires !b.operandFlags && ArithSets(s, ins) && Opcode(ins) == 10
    ensures var d := Trunc(FirstOf(s, ins) - SecondOf(b, s, ins));
      FlagsOf(Cpsr(Executed(b, s, ins))) ==
        Flags(Bit31(d), ToFlag(d == 0), ToFlag(Rn(ins) >= Imm12(ins)), 0)
  {
    FlagsLeft(b, s, ins);
    hide Executed, SecondOf, FirstOf, FlagsOf, CFlag, Opcode, Bit31;
    var x, y, c := FirstOf(s, ins), SecondOf(b, s, ins), CFlag(Cpsr(s));
    WrittenFlagsClosed(10, Rn(ins), Imm12(ins), c);
    assert Alu(10, x, y, c) == Trunc(x as int - y);
    assert WrittenC(10, Rn(ins), Imm12(ins), c) == ToFlag(Rn(ins) >= Imm12(ins));
    hide Alu, Trunc, ArithFlags, Rn, Imm12, WrittenC;
  }

  /** As written, exactly when the guard holds: EQ and NE always, the signed orders
      when the difference does not overflow, the unsigned ones when the instruction's
      fields order like the operands. */
  lemma WrittenCompareExact(b: Build, s: State, ins: Word, cond: nat)
    requires !b.operandFlags && ArithSets(s, ins) && Opcode(ins) == 10 && IsOrder(cond)
    ensures var x, y := FirstOf(s, ins), SecondOf(b, s, ins);
      Condition(Cpsr(Executed(b, s, ins)), cond) == Order(cond, x, y)
      <==> WrittenDecides(cond, x, y, Rn(ins), Imm12(ins))
  {
    WrittenCompareFlags(b, s, ins);
    DecidedByField(cond, FirstOf(s, ins), SecondOf(b, s, ins),
      ToFlag(Rn(ins) >= Imm12(ins)), Rn(ins), Imm12(ins));
    hide Executed, SecondOf, FirstOf, FlagsOf, Condition, Rn, Imm12, Bit31, Trunc, Order, WrittenDecides;
    hide Holds, SetsFlags, Opcode;
  }

  lemma DecidedByField(cond: nat, x: Word, y: Word, c: Flag, n: nat, raw: nat)
    requires IsOrder(cond) && c == ToFlag(n >= raw)
    ensures Holds(cond, Flags(Bit31(Trunc(x - y)), ToFlag(Trunc(x - y) == 0), c, 0)) == Order(cond, x, y)
      <==> WrittenDecides(cond, x, y, n, raw)
  {
    SignOfDifference(x, y);
    hide Bit31, Trunc, Signed;
  }

  /** Each even code and the odd one after it are opposite, up to LE; HI and LS are
      so exactly when Z is clear, as both hold when it is set. */
  lemma ComplementsExact(cpsr: Word, k: nat)
    requires k <= 6
    ensures Condition(cpsr, 2 * k) != Condition(cpsr, 2 * k + 1) <==> k != 4 || ZFlag(cpsr) == 0
  {
    hide CFlag, NFlag, VFlag;
  }
}
