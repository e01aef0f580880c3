/** Concrete inputs on which the code as written departs from ARM DDI 0100. The exact
    conditions are in the law modules. */
module Departures {
  import opened Words
  import opened Builds
  import opened Registers
  import opened RegisterLaws
  import opened Memory
  import opened MemoryRuns
  import opened Core
  import opened Fields
  import opened Decode
  import opened ShifterLaws
  import opened DataProcessing
  import opened FlagLaws
  import opened Branch
  import opened BranchLaws
  import opened LoadStore
  import opened OperandLaws
  import opened SubWordLaws
  import opened MultiWord
  import opened LongSums
  import opened BlockTransfer
  import opened BlockLaws

  /** ADDS r0, r1, r2 of 0xFFFFFFFF and 1 carries, but the written C, which adds the
      register number 1 and the field 2, is clear after it. */
  lemma CarryDeparts(b: Build, s: State)
    requires !b.operandFlags && Known(ModeOf(s)) && s.regs[1] == 0xFFFF_FFFF && s.regs[2] == 1
    ensures CFlag(Cpsr(Executed(b, s, 0xE091_0002))) == 0
    ensures ManualC(4, ReadR(s, 1), ReadR(s, 2), CFlag(Cpsr(s))) == 1
  {
    hide SumWord, Executed, CFlag, FirstOf, SecondOf, ArithSets, KeepsOthers, Known, ModeOf, ReadR;
    hide Opcode, Rn, Imm12, Rd;
    AddsWord();
    LowRead(s, 1);
    LowRead(s, 2);
    LimbRuns(b, s, false, true, Limb(0, 1, 2));
    WrittenCarryOut(b, Link(s, 0xE091_0002));
  }

  lemma AddsWord()
    ensures SumWord(Op(false, true), Limb(0, 1, 2)) == 0xE091_0002
  {
  }

  /** ADDS r0, r1, #33 of 0 does not carry, but C is set after it. */
  lemma NoCarryDeparts(b: Build, s: State)
    requires !b.operandFlags && Known(ModeOf(s)) && s.regs[1] == 0
    ensures CFlag(Cpsr(Executed(b, s, 0xE291_0021))) == 1
    ensures ManualC(4, ReadR(s, 1), 33, CFlag(Cpsr(s))) == 0
  {
    AddsFields();
    hide Executed, Opcode, Rn, Rd, Imm12, Bit20, CFlag, Known, ModeOf;
    WrittenCarryOut(b, Link(s, 0xE291_0021));
  }

  lemma AddsFields()
    ensures Opcode(0xE291_0021) == 4 && Rn(0xE291_0021) == 1 && Rd(0xE291_0021) == 0
    ensures Imm12(0xE291_0021) == 33 && Bit20(0xE291_0021) == 1
  {
    var ins: Word := 0xE291_0021;
    DivModUnique(ins, 0x10_0000, 0xE29, 0x1_0021);
    DivModUnique(ins, 0x20_0000, 0x714, 0x11_0021);
    DivModUnique(ins, 0x1_0000, 0xE291, 0x21);
    DivModUnique(ins, 0x1000, 0xE_2910, 0x21);
  }

  /** CMP r1, #1 of the least negative word overflows; the written V is clear, so GE
      passes after it. */
  lemma OverflowDeparts(b: Build, s: State)
    requires !b.operandFlags && Known(ModeOf(s)) && s.regs[1] == 0x8000_0000
    ensures var s' := Executed(b, s, 0xE351_0001);
      VFlag(Cpsr(s')) == 0 && Condition(Cpsr(s'), 10) && Signed(ReadR(s, 1)) < 1
  {
    hide Executed, Opcode, Rn, Imm12, Bit25, Imm8, CFlag, Known, ModeOf, ReadR, Trunc, Condition, SecondOperand;
    CmpFields();
    LowRead(s, 1);
    ImmediateOperand(b, s, 0xE351_0001);
    SmallTrunc(0x7FFF_FFFF);
    WrittenCompareFlags(b, s, 0xE351_0001);
    FlagsFields(Cpsr(Executed(b, s, 0xE351_0001)));
    GeHolds(Cpsr(Executed(b, s, 0xE351_0001)));
  }

  lemma CmpFields()
    ensures Opcode(0xE351_0001) == 10 && Rn(0xE351_0001) == 1 && Imm12(0xE351_0001) == 1
    ensures Bit25(0xE351_0001) == 1 && Imm8(0xE351_0001) == 1
  {
  }

  lemma GeHolds(cpsr: Word)
    requires NFlag(cpsr) == VFlag(cpsr)
    ensures Condition(cpsr, 10)
  {
    hide NFlag, ZFlag, CFlag, VFlag;
  }

  /** MVN r0, #0 yields 1, and BIC r0, r1, #1 of 3 yields 0 (lines 98 and 102). */
  lemma NegationDeparts(b: Build, s: State)
    requires s.regs[1] == 3
    ensures ReadR(Executed(b, s, 0xE3E0_0000), 0) == 1
    ensures ReadR(Executed(b, s, 0xE3C1_0001), 0) == 0
    ensures !IsResult(15, ReadR(s, 0), 0, CFlag(Cpsr(s)), 1) && !IsResult(14, 3, 1, CFlag(Cpsr(s)), 0)
  {
    NegationWords(ReadR(s, 0), CFlag(Cpsr(s)));
    hide Executed, Alu, IsResult, CFlag, SecondOperand, Opcode, Rn, Rd, Imm8, Bit25;
    MvnFields();
    BicFields();
    ImmediateOperand(b, s, 0xE3E0_0000);
    ImmediateOperand(b, s, 0xE3C1_0001);
    LowRead(s, 0);
    LowRead(s, 1);
    LowResult(b, s, 0xE3E0_0000);
    LowResult(b, s, 0xE3C1_0001);
    hide ReadR;
  }

  lemma NegationWords(a: Word, c: Flag)
    ensures Alu(15, a, 0, c) == 1 && !IsResult(15, a, 0, c, 1)
    ensures Alu(14, 3, 1, c) == 0 && !IsResult(14, 3, 1, c, 0)
  {
    assert And(3, 0) == 0 && And(3, 1) == 1;
    hide And, IsResult;
    AluExact(15, a, 0, c);
    AluExact(14, 3, 1, c);
  }

  lemma MvnFields()
    ensures var ins: Word := 0xE3E0_0000;
      Opcode(ins) == 15 && Rn(ins) == 0 && Rd(ins) == 0 && Bit25(ins) == 1 && Imm8(ins) == 0
  {
    var ins: Word := 0xE3E0_0000;
    DivModUnique(ins, 0x20_0000, 0x71F, 0);
    DivModUnique(ins, 0x200_0000, 0x71, 0x1E0_0000);
    DivModUnique(ins, 0x1_0000, 0xE3E0, 0);
    DivModUnique(ins, 0x1000, 0xE_3E00, 0);
  }

  lemma BicFields()
    ensures var ins: Word := 0xE3C1_0001;
      Opcode(ins) == 14 && Rn(ins) == 1 && Rd(ins) == 0 && Bit25(ins) == 1 && Imm8(ins) == 1
  {
  }

  /** The result of an operation that is no test is in its register, R0 to R7. */
  lemma LowResult(b: Build, s: State, ins: Word)
    requires !IsTest(Opcode(ins)) && Rd(ins) <= 7
    ensures ReadR(Executed(b, s, ins), Rd(ins)) ==
      Alu(Opcode(ins), ReadR(s, Rn(ins)), SecondOperand(b, s, ins).0, CFlag(Cpsr(s)))
  {
    hide Alu, SecondOperand, CFlag, Pack, NewFlags, Opcode, Rn, Rd;
    var alu := Alu(Opcode(ins), ReadR(s, Rn(ins)), SecondOperand(b, s, ins).0, CFlag(Cpsr(s)));
    LowRead(Executed(b, s, ins), Rd(ins));
    LowRead(WriteR(b, s, Rn(ins), alu), Rd(ins));
    hide ReadR;
    assert WriteR(b, s, Rd(ins), alu).regs == Strayed(b.loneBank, s.regs, Rd(ins), alu)[Rd(ins) := alu];
  }

  /** MOVS r1, #0 yields 0 and leaves Z clear, as r1 is not r0 (line 184). */
  lemma ZeroDeparts(b: Build, s: State)
    requires !b.operandFlags && Known(ModeOf(s))
    ensures var s' := Executed(b, s, 0xE3B0_1000);
      ReadR(s', 1) == 0 && ZFlag(Cpsr(s')) == 0
  {
    hide Executed, Alu, CFlag, SecondOperand, Opcode, Rn, Rd, Imm8, Bit25, Bit20, ReadR, Known;
    MovsFields();
    ImmediateOperand(b, s, 0xE3B0_1000);
    LowResult(b, s, 0xE3B0_1000);
    assert Alu(13, ReadR(s, 0), 0, CFlag(Cpsr(s))) == 0 by { MovIsOperand(ReadR(s, 0), 0, CFlag(Cpsr(s))); }
    LogicalFlagsExact(b, s, 0xE3B0_1000);
    FlagsFields(Cpsr(Executed(b, s, 0xE3B0_1000)));
    hide FlagsOf, NFlag, VFlag, ZFlag;
  }

  lemma MovIsOperand(a: Word, v: Word, c: Flag)
    ensures Alu(13, a, v, c) == v
  {
  }

  lemma MovsFields()
    ensures Opcode(0xE3B0_1000) == 13 && Rn(0xE3B0_1000) == 0 && Rd(0xE3B0_1000) == 1
    ensures Bit25(0xE3B0_1000) == 1 && Imm8(0xE3B0_1000) == 0 && Bit20(0xE3B0_1000) == 1
  {
  }

  /** After CMP r1, #1 of 1, HI passes although the operands are equal (decode.c:108). */
  lemma HiDeparts(b: Build, s: State)
    requires Known(ModeOf(s)) && s.regs[1] == 1
    ensures Condition(Cpsr(Executed(b, s, 0xE351_0001)), 8) && !Order(8, ReadR(s, 1), 1)
  {
    hide Executed, Opcode, Rn, Imm12, Bit25, Imm8, CFlag, Known, ReadR, SecondOperand, ArithFlags, Bit31;
    CmpFields();
    LowRead(s, 1);
    ImmediateOperand(b, s, 0xE351_0001);
    FlagsLeft(b, s, 0xE351_0001);
    assert Alu(10, 1, 1, CFlag(Cpsr(s))) == 0;
    hide Alu;
    assert FlagsOf(Cpsr(Executed(b, s, 0xE351_0001))).z == 1;
    hide FlagsOf;
  }

  /** SBCS r0, r1, r2 of 0 and 1 borrows and leaves C set, whatever C was (line 225). */
  lemma BorrowDeparts(b: Build, s: State)
    requires !b.operandFlags && Known(ModeOf(s)) && s.regs[1] == 0 && s.regs[2] == 1
    ensures CFlag(Cpsr(Executed(b, s, 0xE0D1_0002))) == 1
    ensures ManualC(6, ReadR(s, 1), ReadR(s, 2), CFlag(Cpsr(s))) == 0
  {
    hide SumWord, Executed, CFlag, FirstOf, SecondOf, ArithSets, KeepsOthers, Known, ModeOf, ReadR;
    hide Opcode, Rn, Imm12, Rd;
    SbcsWord();
    LowRead(s, 1);
    LowRead(s, 2);
    LimbRuns(b, s, true, false, Limb(0, 1, 2));
    WrittenCarryOut(b, Link(s, 0xE0D1_0002));
  }

  lemma SbcsWord()
    ensures SumWord(Op(true, false), Limb(0, 1, 2)) == 0xE0D1_0002
  {
  }

  /** MOVS pc, lr in SVC mode does not restore the CPSR (line 262). */
  lemma RestoreDeparts(b: Build, s: State)
    requires ModeOf(s) == SVC && s.regs[19] != Cpsr(s)
    ensures Cpsr(Executed(b, s, 0xE1B0_F00E)) == Cpsr(s) != s.regs[Cell(SVC, SPSR)]
  {
    hide Executed, Opcode, Rd, Bit20;
    ReturnFields();
    RestoreExact(b, s, 0xE1B0_F00E);
  }

  lemma ReturnFields()
    ensures Opcode(0xE1B0_F00E) == 13 && Rd(0xE1B0_F00E) == 15 && Bit20(0xE1B0_F00E) == 1
  {
  }

  /** A user write of R13 in SVC mode writes SVC's R13 (registers.c:115). */
  lemma UserWriteDeparts(regs: Regs)
    requires Mode(regs) == SVC && regs[13] == 0
    ensures View(Write(false, regs, 13, 1), USR, 13) == 0 && View(Write(false, regs, 13, 1), SVC, 13) == 1
  {
  }

  /** MOV r0, #0x100 is encoded as 1 rotated by 24 places; line 277 moves 1. */
  lemma ImmediateDeparts(b: Build, s: State, c: Flag)
    ensures SecondOperand(b, s, 0xE3A0_0C01).0 == 1 && ManualImmediate(0xE3A0_0C01, c).0 == 0x100
  {
    hide Places, CFlag, SecondOperand, Imm8, Rs, Bit25;
    ImmediateFields();
    ImmediateOperand(b, s, 0xE3A0_0C01);
    OneRotated(c, 24);
    Pow2Of32();
  }

  lemma ImmediateFields()
    ensures Imm8(0xE3A0_0C01) == 1 && Rs(0xE3A0_0C01) == 12 && Bit25(0xE3A0_0C01) == 1
  {
  }

  lemma OneRotated(c: Flag, n: nat)
    requires 1 <= n <= 31
    ensures Places(3, 1, c, n).0 == Pow2(32 - n)
  {
    hide Places;
    RorPlaces(1, c, n);
    Pow2Monotone(1, n);
    DivModUnique(1, Pow2(n), 0, 1);
  }

  /** LDR r0, [r1, r2] with 0x10000 in R2 loads from R1 (line 245). */
  lemma OffsetDeparts(b: Build, s: State)
    requires s.regs[2] == 0x1_0000
    ensures WordAddress(b, s, 0xE791_0002) == ReadR(s, 1)
    ensures HandlingOffset(ReadR(s, 1), ReadR(s, 2), 1) != ReadR(s, 1)
  {
    LdrFields();
    SmallTrunc(ReadR(s, 1));
    assert ReadR(s, 2) == 0x1_0000;
    OffsetExact(ReadR(s, 1), 0x1_0000, 1);
    hide ReadR, Bit24, Bit25, Rn, Rm, Imm12, Bit23, Trunc, Shifted, OperandOf;
  }

  lemma LdrFields()
    ensures var ins: Word := 0xE791_0002;
      && Bit25(ins) == 1 && Bit24(ins) == 1 && Bit23(ins) == 1 && Rn(ins) == 1 && Rm(ins) == 2 && Imm12(ins) == 2
  {
  }

  /** LDRH r0, [r1, #2] with 0x40 in R2 loads from R1 + 0x40 (line 360), and
      LDRH r0, [r1], #2 does nothing (line 368). */
  lemma HalfDeparts(b: Build, s: State)
    requires s.regs[2] == 0x40
    ensures HalfAddress(s, 0xE1D1_00B2) == Trunc(ReadR(s, 1) + 0x40)
    ensures ManualHalfAddress(s, 0xE1D1_00B2) == Trunc(ReadR(s, 1) + 2)
    ensures Miscellaneous(b, s, 0xE0D1_00B2) == s
  {
    LdrhFields();
    assert ReadR(s, 2) == 0x40;
    PostIndexedDoesNothing(b, s, 0xE0D1_00B2);
    hide ReadR, Bit24, Bit22, Bit21, Bit23, Rn, Rs, Rm, Trunc, Miscellaneous;
  }

  lemma LdrhFields()
    ensures var ins: Word := 0xE1D1_00B2;
      && Bit24(ins) == 1 && Bit23(ins) == 1 && Bit22(ins) == 1 && Rn(ins) == 1 && Rs(ins) == 0 && Rm(ins) == 2
    ensures Bit24(0xE0D1_00B2) == 0 && Bit21(0xE0D1_00B2) == 0
  {
  }

  /** LSR #32 of 1, with 0 in R0, yields 1 instead of 0 (line 49). */
  lemma ShiftDeparts(h: Host, s: State)
    ensures var o := Operand(1, false, 1, 0, 0, 0);
      WrittenValue(h, s, o) == 1 && Manual(o).0 == 0 && !ValueGuard(s, o)
  {
    ShlByZero(h, 1);
    LsrPlaces(1, 0, 32);
    PastTheTop(1, 32);
    hide Places;
  }

  /** 0xFF LSR #3: the bit shifted out last is 1, but the result 31 numbers no register
      and the written carry is 0 (line 52). */
  lemma ShiftCarryDeparts(h: Host, s: State)
    ensures var o := Operand(1, false, 0xFF, 0, 3, 0);
      WrittenValue(h, s, o) == 31 && Manual(o).1 == 1 && WrittenCarry(h, s, o, 31) == 0
  {
    assert Pow2(2) == 4 && Pow2(3) == 8;
    assert Shr(h, 0xFF, 3) == 31;
    LsrPlaces(0xFF, 0, 3);
    assert Bit(0xFF, 2) == 1;
    hide Places, Pow2;
    SmallCarry(h, s, Operand(1, false, 0xFF, 0, 3, 0));
    NoRegister(s, 31, 2);
  }

  /** A branch of an instruction at 0x8000 to itself lands at 0x24008000 (line 32). */
  lemma BranchDeparts(b: Build, s: State, ins: Word)
    requires !b.extendSign && s.regs[PC] == 0x8004
    requires ins == 0xEAFF_FFFE
    ensures Branched(b, s, ins).regs[PC] == 0x2400_8000
  {
    hide Branched, Cond, Offset24, EncodedOffset;
    SelfBranchFields();
    BranchLands(b, s, ins, 0x8000, -8);
  }

  lemma SelfBranchFields()
    ensures Cond(0xEAFF_FFFE) == 14 && Offset24(0xEAFF_FFFE) == EncodedOffset(-8)
  {
  }

  /** From USR mode a write of R13 also changes the R13 of SVC (line 146). */
  lemma BankDeparts(regs: Regs)
    requires Mode(regs) == USR && View(regs, SVC, 13) == 0
    ensures View(Write(false, regs, 13, 1), SVC, 13) == 1 && PhysicalOf(USR, 13) != PhysicalOf(SVC, 13)
  {
  }

  /** LDRSH r0, [r1] of the half 0x8000, with 0 in R0, leaves 0x8000 in R0 instead of
      0xFFFF8000 (line 472). */
  lemma SignDeparts(b: Build, s: State)
    requires Known(ModeOf(s)) && s.regs[0] == 0 && Inside(s.mem, s.regs[1], H2)
    requires Load(s.mem, s.regs[1], H2) == 0x8000
    ensures ReadR(Miscellaneous(b, s, 0xE1D1_00F0), 0) == if b.signedLoads then 0xFFFF_8000 else 0x8000
  {
    hide Miscellaneous, Load, Inside, Cond, Rn, Rs, Rm, Rd, Bit24, Bit23, Bit22, Bit21, Bit20, Bit6, Bit5;
    hide ReadR, Known;
    LdrshFields();
    LowRead(s, 0);
    LowRead(s, 1);
    SmallTrunc(s.regs[1]);
    hide Trunc;
    assert HalfAddress(s, 0xE1D1_00F0) == s.regs[1];
    assert Condition(Cpsr(s), 14) by { hide FlagsOf; }
    hide Condition, HalfAddress;
    LoadHalf(b, s, 0xE1D1_00F0, H2);
  }

  lemma LdrshFields()
    ensures var ins: Word := 0xE1D1_00F0;
      && Bit24(ins) == 1 && Bit23(ins) == 1 && Bit22(ins) == 1 && Rn(ins) == 1 && Rm(ins) == 0 && Rd(ins) == 0
    ensures var ins: Word := 0xE1D1_00F0;
      && Cond(ins) == 14 && Bit20(ins) == 1 && Bit6(ins) == 1 && Bit5(ins) == 1
  {
  }

  /** Whatever the size of the array, the guard lets through the byte just past it. */
  lemma GuardDeparts(m: Mem)
    requires |m.bytes| < 0x1_0000_0000
    ensures !Refused(m, |m.bytes|, B1) && Overruns(m, |m.bytes|, B1)
  {
  }

  /** LDMIA r4, {pc} with 0x8000 at address 4, where the written transfer reads, leaves 0
      in the PC (line 157). */
  lemma PcLoadDeparts(b: Build, s: State)
    requires !b.baseValue && s.stop == Running && Known(ModeOf(s))
    requires |s.mem.bytes| >= 8 && Load(s.mem, 4, W4) == 0x8000
    ensures Multiple(b, s, 0xE894_8000).regs[PC] == 0
    ensures StartAddress(b, s, 0xE894_8000) == 4
  {
    hide Multiple, Load, Known, Count, Listed, Cond, RegisterList, Rn, Bit20, Bit22, Bit23, Bit24, Bit;
    PcFields();
    OnlyPc(0x8000);
    assert StartAddress(b, s, 0xE894_8000) == 4;
    hide StartAddress;
    assert Condition(Cpsr(s), 14) by { hide FlagsOf; }
    hide Condition;
    LoadedPcExact(b, s, 0xE894_8000);
  }

  lemma PcFields()
    ensures var ins: Word := 0xE894_8000;
      && Cond(ins) == 14 && RegisterList(ins) == 0x8000 && Rn(ins) == 4 && Bit20(ins) == 1 && Bit22(ins) == 0
      && Bit23(ins) == 1 && Bit24(ins) == 0
  {
  }

  lemma OnlyPc(list: nat)
    requires list == 0x8000
    ensures Count(list, 16) == 1 && Listed(list, 15)
  {
    hide Bit;
    assert Bit(list, 15) == 1 by { HighBit(list); }
    NoneBelow(list, 15);
    CountNext(list, 15);
    hide Count;
  }

  lemma HighBit(list: nat)
    requires list == 0x8000
    ensures Bit(list, 15) == 1 && Pow2(15) == 0x8000
  {
    Pow2Of32();
    assert Pow2(16) == 2 * Pow2(15);
    hide Pow2;
  }

  lemma {:induction false} NoneBelow(list: nat, n: nat)
    requires list == 0x8000 && n <= 15
    ensures Count(list, n) == 0
    decreases n
  {
    hide Bit;
    if n > 0 {
      NoneBelow(list, n - 1);
      ZeroBit(list, n - 1);
    }
  }

  lemma ZeroBit(list: nat, i: nat)
    requires list == 0x8000 && i < 15
    ensures Bit(list, i) == 0
  {
    HighBit(list);
    Pow2Add(i, 15 - i);
    assert Pow2(15 - i) == 2 * Pow2(14 - i);
    hide Pow2;
    EvenMultiple(list, Pow2(i), Pow2(14 - i));
  }

  lemma EvenMultiple(x: nat, p: nat, k: nat)
    requires p > 0 && x == p * (2 * k)
    ensures x / p % 2 == 0
  {
    DivModUnique(x, p, 2 * k, 0);
  }
}
