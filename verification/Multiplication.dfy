/** Examples/test_Soutenance.s lines 59-68 on the modelled machine: multiplication by
    addition and shifting. */
module Multiplication {
  import opened Words
  import opened Builds
  import opened Registers
  import opened Memory
  import opened Core
  import opened Fields
  import opened Decode
  import opened DataProcessing
  import opened Branch
  import opened BranchLaws
  import opened OperandLaws
  import opened Encodings
  import opened FlagLaws
  import opened Instruction

  const B_CONDTQ: Word := 0xEA00_0003        //         b     condtq
  const TST_R0_1: Word := 0xE310_0001        // tq:     tst   r0, #1
  const ADDNE_R2_R2_R1: Word := 0x1082_2001  //         addne r2, r2, r1
  const MOV_R1_LSL_1: Word := 0xE1A0_1081    //         mov   r1, r1, LSL #1
  const MOV_R0_LSR_1: Word := 0xE1A0_00A0    //         mov   r0, r0, LSR #1
  const CMP_R0_0: Word := 0xE350_0000        // condtq: cmp   r0, #0
  const BNE_TQ: Word := 0x1AFF_FFF9          //         bne   tq
  const MOV_R0_R2: Word := 0xE1A0_0002       //         mov   r0, r2

  function Program(): (p: seq<Word>)
    ensures |p| == 8
  {
    [B_CONDTQ, TST_R0_1, ADDNE_R2_R2_R1, MOV_R1_LSL_1, MOV_R0_LSR_1, CMP_R0_0, BNE_TQ, MOV_R0_R2]
  }

  /** The program lies in memory at base. */
  predicate Placed(m: Mem, base: nat) {
    && base % 4 == 0 && base + 32 <= |m.bytes| && base + 32 < 0x1_0000_0000
    && forall k: nat :: k < 8 ==> Load(m, base + 4 * k, W4) == Program()[k]
  }

  /** Running, with instruction k of the program next and R0, R1, R2 as given. */
  predicate At(s: State, base: nat, k: nat, r0: Word, r1: Word, r2: Word) {
    && s.stop == Running && Placed(s.mem, base)
    && s.regs[PC] == base + 4 * k
    && s.regs[0] == r0 && s.regs[1] == r1 && s.regs[2] == r2
  }

  /** What the program leaves alone: memory, the other registers of every mode, and
      the CPSR but for its flags. */
  predicate Kept(s: State, s': State) {
    && s'.mem == s.mem
    && Cpsr(s') % 0x1000_0000 == Cpsr(s) % 0x1000_0000
    && forall cell: nat :: 3 <= cell < 37 && cell != PC && cell != CPSR ==> s'.regs[cell] == s.regs[cell]
  }

  // ---------- fetching ----------

  lemma FetchAligned(pc: Word)
    requires pc % 4 == 0 && pc + 4 < 0x1_0000_0000
    ensures Trunc(PcSeen(pc) - 4) == pc
  {
    SmallTrunc(pc + 4);
    Aligned(pc + 4);
    SmallTrunc(pc);
    hide Trunc;
  }

  /** One step at instruction k is the dispatch of that instruction. */
  lemma StepAt(b: Build, s: State, base: nat, k: nat)
    requires k < 8 && s.stop == Running && Placed(s.mem, base) && s.regs[PC] == base + 4 * k
    ensures Step(b, s) == Dispatched(b, s.(regs := s.regs[PC := base + 4 * k + 4]), Program()[k])
  {
    hide Dispatched, Load, Program;
    FetchAligned(base + 4 * k);
    hide PcSeen;
    assert Peek(s, base + 4 * k, W4) == Value(Program()[k]);
    hide Peek, Trunc;
    var a: Word := base + 4 * k;
    assert FetchAddress(s) == a;
    NextAddress(a);
    hide FetchAddress;
  }

  lemma NextAddress(a: Word)
    requires a + 4 < 0x1_0000_0000
    ensures Trunc(a + 4) == a + 4
  {
  }

  // ---------- data processing without flags ----------

  /** Repacking the flags as they are changes nothing. */
  lemma Repacked(s: State)
    ensures WithCpsr(s, Pack(Cpsr(s), FlagsOf(Cpsr(s)))) == s
  {
    FlagsSplit(Cpsr(s));
    hide Pack, FlagsOf;
    assert s.regs[CPSR := s.regs[CPSR]] == s.regs;
  }

  /** An operation without the S bit writes its result and nothing else. */
  lemma PlainResult(b: Build, s: State, ins: Word)
    requires Bit20(ins) == 0 && !IsTest(Opcode(ins)) && Rd(ins) <= 2 && Condition(Cpsr(s), Cond(ins))
    ensures Processed(b, s, ins) ==
      s.(regs := s.regs[Rd(ins) := Alu(Opcode(ins), ReadR(s, Rn(ins)), SecondOperand(b, s, ins).0, CFlag(Cpsr(s)))])
  {
    hide SecondOperand, Alu, ReadR, Condition, Pack, FlagsOf, CFlag, Opcode, Rn, Cond, Bit20;
    var alu := Alu(Opcode(ins), ReadR(s, Rn(ins)), SecondOperand(b, s, ins).0, CFlag(Cpsr(s)));
    var s1 := WriteR(b, s, Rd(ins), alu);
    assert s1 == s.(regs := s.regs[Rd(ins) := alu]);
    Repacked(s1);
    hide WriteR;
  }

  lemma OperandLsl1(b: Build, s: State, ins: Word)
    requires Bit25(ins) == 0 && Bit4(ins) == 0 && ShiftKind(ins) == 0 && ShiftImm(ins) == 1
    ensures SecondOperand(b, s, ins).0 == Trunc(2 * ReadR(s, Rm(ins)))
  {
    assert Pow2(1) == 2;
    assert Shl(b.host, ReadR(s, Rm(ins)), 1) == Trunc(2 * ReadR(s, Rm(ins)));
    hide ReadR, Rm, Rs, WrittenCarry, GetBit, Shl;
  }

  lemma OperandLsr1(b: Build, s: State, ins: Word)
    requires Bit25(ins) == 0 && Bit4(ins) == 0 && ShiftKind(ins) == 1 && ShiftImm(ins) == 1
    ensures SecondOperand(b, s, ins).0 == ReadR(s, Rm(ins)) / 2
  {
    assert Pow2(1) == 2;
    assert Shr(b.host, ReadR(s, Rm(ins)), 1) == ReadR(s, Rm(ins)) / 2;
    hide ReadR, Rm, Rs, WrittenCarry, GetBit, Shr;
  }

  // ---------- the instructions ----------

  /** The four tests set N and Z by the result, with whatever operand, and touch nothing
      but the flags. */
  lemma Tested(b: Build, s: State, ins: Word)
    requires IsTest(Opcode(ins)) && Condition(Cpsr(s), Cond(ins))
    ensures var s', alu := Processed(b, s, ins),
                       Alu(Opcode(ins), ReadR(s, Rn(ins)), SecondOperand(b, s, ins).0, CFlag(Cpsr(s)));
      && s'.mem == s.mem && s'.stop == s.stop
      && (forall cell: nat :: cell < 37 && cell != CPSR ==> s'.regs[cell] == s.regs[cell])
      && Cpsr(s') % 0x1000_0000 == Cpsr(s) % 0x1000_0000
      && ZFlag(Cpsr(s')) == ToFlag(alu == 0) && NFlag(Cpsr(s')) == Bit31(alu)
  {
    hide Alu, ReadR, Condition, Pack, FlagsOf, CFlag, Opcode, Rn, Rs, Cond, Bit25, Bit20, Imm8, ArithFlags, Bit31;
    hide SecondOperand;
    var (v, carry) := SecondOperand(b, s, ins);
    var a := ReadR(s, Rn(ins));
    var alu := Alu(Opcode(ins), a, v, CFlag(Cpsr(s)));
    var f := NewFlags(b, s, ins, alu, carry, a, v);
    assert f.z == ToFlag(alu == 0) && f.n == Bit31(alu);
    hide NewFlags;
    PackSplits(Cpsr(s), f);
    PackPack(Cpsr(s), f, f);
    FlagsFields(Pack(Cpsr(s), f));
  }

  lemma TstFields()
    ensures var ins := Program()[1];
      && TypeOp(ins) == 1 && Cond(ins) == 14 && Opcode(ins) == 8 && Bit25(ins) == 1 && Rn(ins) == 0 && Imm8(ins) == 1
  {
  }

  lemma StepTst(b: Build, s: State, base: nat, r0: Word, r1: Word, r2: Word)
    requires At(s, base, 1, r0, r1, r2)
    ensures At(Step(b, s), base, 2, r0, r1, r2) && Kept(s, Step(b, s))
    ensures ZFlag(Cpsr(Step(b, s))) == ToFlag(r0 % 2 == 0)
  {
    hide Load, Program, And, TypeOp, Cond, Opcode, Bit25, Rn, Imm8, Processed, CFlag, ReadR, Step, ZFlag;
    hide NFlag, VFlag, SecondOperand, Placed, Bit31;
    TstFields();
    AndOne(r0);
    StepAt(b, s, base, 1);
    AtRegisters(s, base, 1, r0, r1, r2);
    var f := s.(regs := s.regs[PC := base + 8]);
    LowRead(f, 0);
    ImmediateOperand(b, f, Program()[1]);
    Tested(b, f, Program()[1]);
  }

  lemma CmpFields()
    ensures var ins := Program()[5];
      && TypeOp(ins) == 1 && Cond(ins) == 14 && Opcode(ins) == 10 && Bit25(ins) == 1 && Rn(ins) == 0 && Imm8(ins) == 0
  {
  }

  lemma StepCmp(b: Build, s: State, base: nat, r0: Word, r1: Word, r2: Word)
    requires At(s, base, 5, r0, r1, r2)
    ensures At(Step(b, s), base, 6, r0, r1, r2) && Kept(s, Step(b, s))
    ensures ZFlag(Cpsr(Step(b, s))) == ToFlag(r0 == 0)
  {
    hide Load, Program, Trunc, TypeOp, Cond, Opcode, Bit25, Rn, Imm8, Processed, CFlag, ReadR, Step, ZFlag;
    hide NFlag, VFlag, SecondOperand, Placed, Bit31;
    CmpFields();
    SmallTrunc(r0);
    StepAt(b, s, base, 5);
    AtRegisters(s, base, 5, r0, r1, r2);
    var f := s.(regs := s.regs[PC := base + 24]);
    LowRead(f, 0);
    ImmediateOperand(b, f, Program()[5]);
    Tested(b, f, Program()[5]);
  }

  lemma AddneFields()
    ensures var ins := Program()[2];
      && TypeOp(ins) == 0 && Cond(ins) == 1 && Opcode(ins) == 4 && Bit25(ins) == 0
      && Rn(ins) == 2 && Rm(ins) == 1 && Rd(ins) == 2 && Bit20(ins) == 0
      && Bit4(ins) == 0 && ShiftKind(ins) == 0 && ShiftImm(ins) == 0
  {
  }

  lemma StepAddne(b: Build, s: State, base: nat, r0: Word, r1: Word, r2: Word)
    requires At(s, base, 2, r0, r1, r2)
    ensures At(Step(b, s), base, 3, r0, r1, if ZFlag(Cpsr(s)) == 0 then Trunc(r2 + r1) else r2)
    ensures Kept(s, Step(b, s))
  {
    AddneFields();
    hide Load, Program, TypeOp, Cond, Opcode, Bit25, Rn, Rm, Rd, Bit20, Bit4, ShiftKind, ShiftImm;
    hide Processed, CFlag, ReadR, Step, SecondOperand, NFlag, VFlag;
    StepAt(b, s, base, 2);
    var f := s.(regs := s.regs[PC := base + 12]);
    LowRead(f, 1);
    LowRead(f, 2);
    if Condition(Cpsr(f), 1) {
      PlainResult(b, f, Program()[2]);
      OperandLsl0(b, f, Program()[2]);
    }
    hide Trunc;
  }

  lemma StepMov(b: Build, s: State, base: nat, k: nat, r0: Word, r1: Word, r2: Word, rd: nat, value: Word)
    requires At(s, base, k, r0, r1, r2) && k < 8 && rd <= 1
    requires var f, ins := s.(regs := s.regs[PC := base + 4 * k + 4]), Program()[k];
      && TypeOp(ins) == 0 && Bit4(ins) == 0 && Cond(ins) == 14 && Opcode(ins) == 13 && Bit20(ins) == 0 && Rd(ins) == rd
      && SecondOperand(b, f, ins).0 == value
    ensures At(Step(b, s), base, k + 1, if rd == 0 then value else r0, if rd == 1 then value else r1, r2)
    ensures Kept(s, Step(b, s))
  {
    hide Load, Program, SecondOperand, TypeOp, Bit4, Cond, Opcode, Bit20, Rd, ReadR, CFlag;
    StepAt(b, s, base, k);
    var f := s.(regs := s.regs[PC := base + 4 * k + 4]);
    PlainResult(b, f, Program()[k]);
    hide Processed;
  }

  lemma AtRegisters(s: State, base: nat, k: nat, r0: Word, r1: Word, r2: Word)
    requires At(s, base, k, r0, r1, r2) && k < 8
    ensures s.regs[0] == r0 && s.regs[1] == r1 && s.regs[2] == r2 && base + 4 * k + 4 < 0x1_0000_0000
  {
  }

  /** The fields above bit 20 of a MOV without S. */
  lemma MovTop(ins: Word)
    requires ins / 0x10_0000 == 0xE1A
    ensures TypeOp(ins) == 0 && Cond(ins) == 14 && Opcode(ins) == 13 && Bit20(ins) == 0 && Bit25(ins) == 0
  {
    hide TypeOp, Cond, Bit20, Bit25, Opcode;
    TopFields(ins, 0xE1A);
  }

  lemma Moves()
    ensures Program()[3] == 0xE1A0_1081 && Program()[4] == 0xE1A0_00A0 && Program()[7] == 0xE1A0_0002
  {
  }

  lemma DoubleFields()
    ensures var ins := Program()[3];
      && TypeOp(ins) == 0 && Bit4(ins) == 0 && Cond(ins) == 14 && Opcode(ins) == 13 && Bit20(ins) == 0 && Rd(ins) == 1
      && Bit25(ins) == 0 && Rm(ins) == 1 && ShiftKind(ins) == 0 && ShiftImm(ins) == 1
  {
    hide *;
    Moves();
    DoubleWord();
    MovTop(0xE1A0_1081);
  }

  lemma DoubleWord()
    ensures var ins: Word := 0xE1A0_1081;
      && ins / 0x10_0000 == 0xE1A
      && Rd(ins) == 1 && Rm(ins) == 1 && Bit4(ins) == 0 && ShiftKind(ins) == 0 && ShiftImm(ins) == 1
  {
  }

  lemma StepDouble(b: Build, s: State, base: nat, r0: Word, r1: Word, r2: Word)
    requires At(s, base, 3, r0, r1, r2)
    ensures At(Step(b, s), base, 4, r0, Trunc(2 * r1), r2) && Kept(s, Step(b, s))
  {
    DoubleFields();
    hide Load, Program, SecondOperand, TypeOp, Bit4, Cond, Opcode, Bit20, Rd, Step, At, ReadR, Bit25, Rm;
    hide ShiftKind, ShiftImm, Trunc;
    AtRegisters(s, base, 3, r0, r1, r2);
    var f := s.(regs := s.regs[PC := base + 16]);
    LowRead(f, 1);
    OperandLsl1(b, f, Program()[3]);
    StepMov(b, s, base, 3, r0, r1, r2, 1, Trunc(2 * r1));
  }

  lemma HalveFields()
    ensures var ins := Program()[4];
      && TypeOp(ins) == 0 && Bit4(ins) == 0 && Cond(ins) == 14 && Opcode(ins) == 13 && Bit20(ins) == 0 && Rd(ins) == 0
      && Bit25(ins) == 0 && Rm(ins) == 0 && ShiftKind(ins) == 1 && ShiftImm(ins) == 1
  {
    hide *;
    Moves();
    HalveWord();
    MovTop(0xE1A0_00A0);
  }

  lemma HalveWord()
    ensures var ins: Word := 0xE1A0_00A0;
      && ins / 0x10_0000 == 0xE1A
      && Rd(ins) == 0 && Rm(ins) == 0 && Bit4(ins) == 0 && ShiftKind(ins) == 1 && ShiftImm(ins) == 1
  {
  }

  lemma StepHalve(b: Build, s: State, base: nat, r0: Word, r1: Word, r2: Word)
    requires At(s, base, 4, r0, r1, r2)
    ensures At(Step(b, s), base, 5, r0 / 2, r1, r2) && Kept(s, Step(b, s))
  {
    HalveFields();
    hide Load, Program, SecondOperand, TypeOp, Bit4, Cond, Opcode, Bit20, Rd, Step, At, ReadR, Bit25, Rm;
    hide ShiftKind, ShiftImm;
    AtRegisters(s, base, 4, r0, r1, r2);
    var f := s.(regs := s.regs[PC := base + 20]);
    LowRead(f, 0);
    OperandLsr1(b, f, Program()[4]);
    StepMov(b, s, base, 4, r0, r1, r2, 0, r0 / 2);
  }

  lemma ReturnFields()
    ensures var ins := Program()[7];
      && TypeOp(ins) == 0 && Bit4(ins) == 0 && Cond(ins) == 14 && Opcode(ins) == 13 && Bit20(ins) == 0 && Rd(ins) == 0
      && Bit25(ins) == 0 && Rm(ins) == 2 && ShiftKind(ins) == 0 && ShiftImm(ins) == 0
  {
    hide *;
    Moves();
    ReturnWord();
    MovTop(0xE1A0_0002);
  }

  lemma ReturnWord()
    ensures var ins: Word := 0xE1A0_0002;
      && ins / 0x10_0000 == 0xE1A
      && Rd(ins) == 0 && Rm(ins) == 2 && Bit4(ins) == 0 && ShiftKind(ins) == 0 && ShiftImm(ins) == 0
  {
  }

  lemma StepReturn(b: Build, s: State, base: nat, r0: Word, r1: Word, r2: Word)
    requires At(s, base, 7, r0, r1, r2)
    ensures At(Step(b, s), base, 8, r2, r1, r2) && Kept(s, Step(b, s))
  {
    ReturnFields();
    hide Load, Program, SecondOperand, TypeOp, Bit4, Cond, Opcode, Bit20, Rd, Step, At, ReadR, Bit25, Rm;
    hide ShiftKind, ShiftImm;
    AtRegisters(s, base, 7, r0, r1, r2);
    var f := s.(regs := s.regs[PC := base + 32]);
    LowRead(f, 2);
    OperandLsl0(b, f, Program()[7]);
    StepMov(b, s, base, 7, r0, r1, r2, 0, r2);
  }

  /** A branch without link changes only the PC. */
  lemma BranchOnlyPc(b: Build, s: State, ins: Word)
    requires Bit24(ins) == 0
    ensures Branched(b, s, ins) == s.(regs := s.regs[PC := Branched(b, s, ins).regs[PC]])
  {
    hide SignedExtend30, ReadR, Trunc;
    assert s.regs[PC := s.regs[PC]] == s.regs;
  }

  lemma StepEnter(b: Build, s: State, base: nat, r0: Word, r1: Word, r2: Word)
    requires At(s, base, 0, r0, r1, r2)
    ensures At(Step(b, s), base, 5, r0, r1, r2) && Kept(s, Step(b, s))
  {
    EnterFields();
    NextAddress(base);
    NextAddress(base + 16);
    hide Load, Program, TypeOp, Cond, Bit24, Offset24, EncodedOffset, Branched, Trunc, Step;
    StepAt(b, s, base, 0);
    var f := s.(regs := s.regs[PC := base + 4]);
    BranchLands(b, f, Program()[0], base, 12);
    BranchOnlyPc(b, f, Program()[0]);
    assert base + 8 + 12 == base + 16 + 4;
  }

  lemma EnterFields()
    ensures var ins := Program()[0];
      TypeOp(ins) == 5 && Cond(ins) == 14 && Bit24(ins) == 0 && Offset24(ins) == EncodedOffset(12)
  {
  }

  lemma BneFields()
    ensures var ins := Program()[6];
      TypeOp(ins) == 5 && Cond(ins) == 1 && Bit24(ins) == 0 && Offset24(ins) == EncodedOffset(-28)
  {
  }

  /** BNE falls through when Z is set; otherwise it lands on tq with the extension
      repaired, and as written 0x24000000 above it. */
  lemma StepBne(b: Build, s: State, base: nat, r0: Word, r1: Word, r2: Word)
    requires At(s, base, 6, r0, r1, r2)
    ensures Kept(s, Step(b, s))
    ensures ZFlag(Cpsr(s)) == 1 ==> At(Step(b, s), base, 7, r0, r1, r2)
    ensures ZFlag(Cpsr(s)) == 0 && b.extendSign ==> At(Step(b, s), base, 1, r0, r1, r2)
    ensures ZFlag(Cpsr(s)) == 0 && !b.extendSign ==> Step(b, s).regs[PC] == Trunc(base + 4 + 0x2400_0000)
  {
    BneFields();
    hide Load, Program, TypeOp, Cond, Bit24, Offset24, EncodedOffset, Branched, Trunc, Step, NFlag, ZFlag, CFlag, VFlag;
    StepAt(b, s, base, 6);
    var f := s.(regs := s.regs[PC := base + 28]);
    hide Placed;
    if ZFlag(Cpsr(s)) == 0 {
      assert Dispatched(b, f, Program()[6]) == Branched(b, f, Program()[6]);
      hide Dispatched;
      BneLands(b, f, base);
      BranchOnlyPc(b, f, Program()[6]);
    } else {
      assert Dispatched(b, f, Program()[6]) == f;
    }
  }

  lemma BneLands(b: Build, f: State, base: nat)
    requires base % 4 == 0 && base + 32 < 0x1_0000_0000 && f.regs[PC] == base + 28
    ensures var pc := Branched(b, f, Program()[6]).regs[PC];
      if b.extendSign then pc == base + 4 else pc == Trunc(base + 4 + 0x2400_0000)
  {
    BneFields();
    NextAddress(base + 24);
    NextAddress(base);
    hide Program, TypeOp, Cond, Bit24, Offset24, EncodedOffset, Branched, Trunc;
    var src: Word := base + 24;
    assert src % 4 == 0 && src + 4 == base + 28 && src + 8 - 28 == base + 4;
    BranchLands(b, f, Program()[6], src, -28);
  }

  // ---------- the loop ----------

  lemma KeptOn(s: State, t: State, u: State)
    requires Kept(s, t) && Kept(t, u)
    ensures Kept(s, u)
  {
  }

  /** One iteration, from tq back to condtq. */
  lemma Body(b: Build, s: State, base: nat, r0: Word, r1: Word, r2: Word)
    requires At(s, base, 1, r0, r1, r2)
    ensures var s' := Steps(b, s, 4);
      At(s', base, 5, r0 / 2, Trunc(2 * r1), Trunc(r2 + r0 % 2 * r1)) && Kept(s, s')
  {
    hide At, Kept, Step, ZFlag, Trunc;
    var s1 := Step(b, s);
    StepTst(b, s, base, r0, r1, r2);
    var y := if ZFlag(Cpsr(s1)) == 0 then Trunc(r2 + r1) else r2;
    SmallTrunc(r2);
    FlagTimes(r0 % 2, r1);
    assert y == Trunc(r2 + r0 % 2 * r1);
    var s2 := Step(b, s1);
    StepAddne(b, s1, base, r0, r1, r2);
    var s3 := Step(b, s2);
    StepDouble(b, s2, base, r0, r1, y);
    StepHalve(b, s3, base, r0, Trunc(2 * r1), y);
    KeptOn(s, s1, s2);
    KeptOn(s, s2, s3);
    KeptOn(s, s3, Step(b, s3));
    FourSteps(b, s);
  }

  lemma FourSteps(b: Build, s: State)
    ensures Steps(b, s, 2) == Step(b, Step(b, s))
    ensures Steps(b, s, 4) == Step(b, Step(b, Step(b, Step(b, s))))
  {
    hide Step;
    assert Steps(b, s, 2) == Steps(b, Step(b, s), 1);
    assert Steps(b, s, 4) == Steps(b, Step(b, s), 3);
    assert Steps(b, Step(b, s), 3) == Steps(b, Step(b, Step(b, s)), 2);
    TwoSteps(b, Step(b, Step(b, s)));
  }

  lemma TwoSteps(b: Build, s: State)
    ensures Steps(b, s, 2) == Step(b, Step(b, s))
  {
    hide Step;
    assert Steps(b, s, 2) == Steps(b, Step(b, s), 1);
  }

  /** The test, from condtq to tq or past the loop. */
  lemma Test(b: Build, s: State, base: nat, r0: Word, r1: Word, r2: Word)
    requires At(s, base, 5, r0, r1, r2)
    ensures var s' := Steps(b, s, 2);
      && Kept(s, s')
      && (r0 == 0 ==> At(s', base, 7, r0, r1, r2))
      && (r0 != 0 && b.extendSign ==> At(s', base, 1, r0, r1, r2))
      && (r0 != 0 && !b.extendSign ==> s'.regs[PC] == Trunc(base + 4 + 0x2400_0000))
  {
    hide At, Kept, Step, ZFlag, Trunc;
    StepCmp(b, s, base, r0, r1, r2);
    StepBne(b, Step(b, s), base, r0, r1, r2);
    KeptOn(s, Step(b, s), Step(b, Step(b, s)));
    FourSteps(b, s);
  }

  /** How often the loop runs: once for every binary digit of R0. */
  function Iterations(r0: nat): nat {
    if r0 == 0 then 0 else 1 + Iterations(r0 / 2)
  }

  lemma {:induction false} IterationsBound(r0: nat, n: nat)
    requires r0 < Pow2(n)
    ensures Iterations(r0) <= n
    decreases n
  {
    if r0 > 0 {
      IterationsBound(r0 / 2, n - 1);
    }
  }

  /** The value the loop keeps: R2 + R0 * R1 modulo 2^32. */
  lemma Invariant(r0: Word, r1: Word, r2: Word)
    ensures Trunc(Trunc(r2 + r0 % 2 * r1) + r0 / 2 * Trunc(2 * r1)) == Trunc(r2 + r0 * r1)
  {
    var h, q := r0 / 2, 2 * r1 / 0x1_0000_0000;
    TruncSum(r2 + r0 % 2 * r1, h * Trunc(2 * r1));
    var x := r2 + r0 % 2 * r1 + h * Trunc(2 * r1);
    TruncShift(x, h * q);
    Product(r0, r1, q);
  }

  lemma Product(r0: Word, r1: Word, q: int)
    requires 2 * r1 == q * 0x1_0000_0000 + Trunc(2 * r1)
    ensures r0 % 2 * r1 + r0 / 2 * Trunc(2 * r1) + r0 / 2 * q * 0x1_0000_0000 == r0 * r1
  {
    var h, d := r0 / 2, r0 % 2;
    assert r0 == 2 * h + d;
    assert h * (2 * r1) == h * (q * 0x1_0000_0000 + Trunc(2 * r1));
    assert h * (q * 0x1_0000_0000) == h * q * 0x1_0000_0000;
    assert (2 * h + d) * r1 == h * (2 * r1) + d * r1;
  }

  lemma {:induction false} Loop(b: Build, s: State, base: nat, r0: Word, r1: Word, r2: Word) returns (end1: Word)
    requires b.extendSign && At(s, base, 5, r0, r1, r2)
    ensures var s' := Steps(b, s, 6 * Iterations(r0) + 2);
      At(s', base, 7, 0, end1, Trunc(r2 + r0 * r1)) && Kept(s, s')
    decreases r0
  {
    hide At, Kept, Step, Trunc, Steps;
    Test(b, s, base, r0, r1, r2);
    if r0 == 0 {
      end1 := r1;
      assert 0 * r1 == 0;
      SmallTrunc(r2);
    } else {
      var s1 := Steps(b, s, 2);
      Body(b, s1, base, r0, r1, r2);
      var s2 := Steps(b, s1, 4);
      StepsAdd(b, s, 2, 4);
      end1 := Loop(b, s2, base, r0 / 2, Trunc(2 * r1), Trunc(r2 + r0 % 2 * r1));
      StepsAdd(b, s, 6, 6 * Iterations(r0 / 2) + 2);
      Invariant(r0, r1, r2);
      KeptOn(s, s1, s2);
      KeptOn(s, s2, Steps(b, s2, 6 * Iterations(r0 / 2) + 2));
      assert 6 * Iterations(r0) + 2 == 6 + (6 * Iterations(r0 / 2) + 2);
    }
  }

  /** From any R0, R1, R2, in any mode and under either endianness, the program ends
      within 32 iterations with R0 = R2 + R0 * R1 modulo 2^32; only line 32 of
      arm_branch_other.c needs repair. Memory, R3 to R14, the registers of all other
      modes and the CPSR below the flags are as before. */
  lemma Multiplies(b: Build, s: State, base: nat, r0: Word, r1: Word, r2: Word)
    requires b.extendSign && At(s, base, 0, r0, r1, r2)
    ensures Iterations(r0) <= 32
    ensures var s' := Steps(b, s, 6 * Iterations(r0) + 4);
      && s'.stop == Running && s'.regs[PC] == base + 32
      && s'.regs[0] == Trunc(r2 + r0 * r1)
      && Kept(s, s')
  {
    hide At, Kept, Step, Trunc, Iterations, Steps, Pow2, Placed;
    WordIterations(r0);
    var n := 6 * Iterations(r0) + 2;
    var product := Trunc(r2 + r0 * r1);
    StepEnter(b, s, base, r0, r1, r2);
    var s1 := Step(b, s);
    var end1 := Loop(b, s1, base, r0, r1, r2);
    var s2 := Steps(b, s1, n);
    StepReturn(b, s2, base, 0, end1, product);
    var s3 := Step(b, s2);
    KeptOn(s, s1, s2);
    KeptOn(s, s2, s3);
    Finish(b, s, n);
    AtEnd(s3, base, product, end1, product);
  }

  lemma WordIterations(r0: Word)
    ensures Iterations(r0) <= 32
  {
    Pow2Of32();
    IterationsBound(r0, 32);
  }

  lemma Finish(b: Build, s: State, n: nat)
    ensures Steps(b, s, n + 2) == Step(b, Steps(b, Step(b, s), n))
  {
    hide Step;
    StepsAdd(b, Step(b, s), n, 1);
    assert Steps(b, s, n + 2) == Steps(b, Step(b, s), n + 1);
    assert Steps(b, Steps(b, Step(b, s), n), 1) == Step(b, Steps(b, Step(b, s), n));
  }

  lemma AtEnd(s: State, base: nat, r0: Word, r1: Word, r2: Word)
    requires At(s, base, 8, r0, r1, r2)
    ensures s.stop == Running && s.regs[PC] == base + 32 && s.regs[0] == r0
  {
  }

  /** As written the program gets past its first test exactly when R0 is 0, and then it
      is right; otherwise the backward branch goes 0x24000000 bytes past tq. */
  lemma WrittenMultiplication(b: Build, s: State, base: nat, r0: Word, r1: Word, r2: Word)
    requires !b.extendSign && At(s, base, 0, r0, r1, r2)
    ensures Steps(b, s, 3).regs[PC] == base + 28 <==> r0 == 0
    ensures r0 == 0 ==> Steps(b, s, 4).regs[0] == Trunc(r2 + r0 * r1) && Steps(b, s, 4).regs[PC] == base + 32
    ensures r0 != 0 ==> Steps(b, s, 3).regs[PC] == Trunc(base + 4 + 0x2400_0000)
  {
    hide At, Kept, Step, Trunc, Steps;
    StepEnter(b, s, base, r0, r1, r2);
    Test(b, Step(b, s), base, r0, r1, r2);
    ThreeSteps(b, s);
    BaseBound(s, base, r0, r1, r2);
    FarAway(base);
    if r0 == 0 {
      StepReturn(b, Steps(b, s, 3), base, r0, r1, r2);
      assert r2 + 0 * r1 == r2;
      SmallTrunc(r2);
      AtEnd(Steps(b, s, 4), base, r2, r1, r2);
      AtSeven(Steps(b, s, 3), base, r0, r1, r2);
    }
  }

  lemma ThreeSteps(b: Build, s: State)
    ensures Steps(b, s, 3) == Steps(b, Step(b, s), 2)
    ensures Steps(b, s, 4) == Step(b, Steps(b, s, 3))
  {
    hide Step;
    StepsAdd(b, s, 3, 1);
    assert Steps(b, Steps(b, s, 3), 1) == Step(b, Steps(b, s, 3));
  }

  lemma BaseBound(s: State, base: nat, r0: Word, r1: Word, r2: Word)
    requires At(s, base, 0, r0, r1, r2)
    ensures base + 32 < 0x1_0000_0000
  {
  }

  lemma AtSeven(s: State, base: nat, r0: Word, r1: Word, r2: Word)
    requires At(s, base, 7, r0, r1, r2)
    ensures s.regs[PC] == base + 28
  {
  }

  lemma FarAway(base: nat)
    requires base + 32 < 0x1_0000_0000
    ensures Trunc(base + 4 + 0x2400_0000) != base + 28
  {
  }
}
