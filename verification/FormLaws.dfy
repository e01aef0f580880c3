/** The other instructions from their words: block transfers, data processing, branches
    and SWI, and what a step does when nothing is executed. */
module FormLaws {
  import opened Words
  import opened Builds
  import opened Registers
  import opened RegisterLaws
  import opened Memory
  import opened Core
  import opened Fields
  import opened Encodings
  import opened Decode
  import opened ShifterLaws
  import opened DataProcessing
  import opened FlagLaws
  import opened OperandLaws
  import opened Branch
  import opened BranchLaws
  import opened BlockTransfer
  import opened BlockLaws
  import opened TransferLaws
  import opened Instruction

  // ---------- nothing executed ----------

  /** An instruction whose condition fails changes nothing. */
  lemma Skipped(b: Build, s: State, ins: Word)
    requires !Condition(Cpsr(s), ins / 0x1000_0000)
    ensures Dispatched(b, s, ins) == s
  {
    hide Condition;
  }

  /** Where the next instruction is: the PC with bit 1 of the word after it cleared. */
  function NextFetch(pc: Word): Word {
    Trunc(Trunc(pc + 4) - Trunc(pc + 4) / 2 % 2 * 2 - 4)
  }

  /** A fetch that is refused moves the PC past it and changes nothing else; one past the
      array, or in a machine that has stopped, changes nothing. */
  lemma NotFetched(b: Build, s: State)
    ensures var a := NextFetch(s.regs[PC]);
      && (s.stop != Running ==> Step(b, s) == s)
      && (s.stop == Running && (a % 4 != 0 || a >= 4 * |s.mem.bytes| + 4) ==>
            Step(b, s) == s.(regs := s.regs[PC := Trunc(a + 4)]))
      && (s.stop == Running && a % 4 == 0 && |s.mem.bytes| < a + 4 < 4 * |s.mem.bytes| + 8 ==>
            Step(b, s) == s.(stop := Overrun))
  {
    hide Dispatched, Load;
    assert FetchAddress(s) == NextFetch(s.regs[PC]);
    hide FetchAddress, NextFetch, Trunc;
  }

  /** A fetch that is served executes the word there with the PC past it. */
  lemma FetchedWord(b: Build, s: State)
    requires var a := NextFetch(s.regs[PC]); a % 4 == 0 && a + 4 <= |s.mem.bytes|
    requires s.stop == Running
    ensures var a := NextFetch(s.regs[PC]);
      Step(b, s) == Dispatched(b, s.(regs := s.regs[PC := Trunc(a + 4)]), Load(s.mem, a, W4))
  {
    hide Dispatched, Load;
    assert FetchAddress(s) == NextFetch(s.regs[PC]);
    hide FetchAddress, NextFetch, Trunc;
  }

  /** SWI 0x123456 ends the simulation; line 77 lets the coprocessor transfers with that
      number do it too, and everything else in the two classes does nothing. */
  lemma SwiExact(b: Build, s: State, cond: FourBits, kind: nat, top: Flag, number: nat)
    requires kind in {6, 7} && number < 0x100_0000
    ensures Dispatched(b, s, CodedLong(cond, kind, top, number)) ==
      if Condition(Cpsr(s), cond) && top == 1 && number == 0x12_3456 then s.(stop := Exited) else s
  {
    hide Condition, CodedLong, Cond, TypeOp, Bit24, Offset24;
    LongFields(cond, kind, top, number);
  }

  /** B and BL at address src, d the distance from src + 8: the PC lands on src + 8 + d
      exactly when forward or repaired, LR is the next address with L, and nothing else
      changes. */
  lemma BranchForm(b: Build, s: State, cond: FourBits, link: Flag, src: Word, d: int)
    requires Known(ModeOf(s)) && Condition(Cpsr(s), cond) && Encodable(d)
    requires src % 4 == 0 && s.regs[PC] == Trunc(src + 4)
    ensures var s' := Dispatched(b, s, CodedLong(cond, 5, link, EncodedOffset(d)));
      && (s'.regs[PC] == Trunc(src + 8 + d) <==> b.extendSign || d >= 0)
      && s'.mem == s.mem && s'.stop == s.stop && Cpsr(s') == Cpsr(s)
      && forall r: nat :: r < 15 ==> ReadR(s', r) == if link == 1 && r == 14 then Trunc(src + 4) else ReadR(s, r)
  {
    NeverPasses(Cpsr(s), cond);
    hide Condition, CodedLong, Cond, TypeOp, Bit24, Bit23, Offset24, EncodedOffset, Encodable, Branched, ReadR, Trunc;
    LongFields(cond, 5, link, EncodedOffset(d));
    var ins := CodedLong(cond, 5, link, EncodedOffset(d));
    BranchLands(b, s, ins, src, d);
    if link == 1 {
      LinkIs(b, s, ins, src);
    }
    BranchViews(b, s, ins);
    hide Dispatched;
    assert Dispatched(b, s, ins) == Branched(b, s, ins) by { BranchTaken(b, s, ins); }
  }

  lemma NeverPasses(cpsr: Word, cond: FourBits)
    requires Condition(cpsr, cond)
    ensures cond != 15
  {
    hide FlagsOf;
  }

  lemma BranchTaken(b: Build, s: State, ins: Word)
    requires TypeOp(ins) == 5 && Condition(Cpsr(s), Cond(ins))
    ensures Dispatched(b, s, ins) == Branched(b, s, ins)
  {
    hide Condition, Branched, TypeOp, Cond;
  }

  lemma BranchViews(b: Build, s: State, ins: Word)
    requires Known(ModeOf(s))
    ensures var s' := Branched(b, s, ins);
      && s'.mem == s.mem && s'.stop == s.stop && Cpsr(s') == Cpsr(s)
      && forall r: nat :: r < 15 && (Bit24(ins) == 0 || r != 14) ==> ReadR(s', r) == ReadR(s, r)
  {
    hide ReadR, WriteR, SignedExtend30, Trunc, Cond, Bit24, Known, ModeOf;
    var lr := Trunc(ReadR(s, PC) - 4);
    WriteViews(b, s, 14, lr);
    var s1 := if Bit24(ins) == 1 then WriteR(b, s, 14, lr) else s;
    WriteViews(b, s1, PC, Trunc(ReadR(s1, PC) + 4 * SignedExtend30(b, ins)));
  }

  // ---------- block transfers ----------

  /** Where a block starts: by section A5.4 with the base repaired, and as written by the
      number of Rn with U the other way round. */
  function FormStart(b: Build, s: State, p: Flag, u: Flag, rn: FourBits, list: nat): Word {
    var n := 4 * Count(list, 16);
    if b.baseValue then StartOf(ReadR(s, rn), n, u, p) else StartOf(rn, n, 1 - u, p)
  }

  function FormBase(s: State, u: Flag, rn: FourBits, list: nat): Word {
    MovedBase(ReadR(s, rn), 4 * Count(list, 16), u)
  }

  /** Whether the base is written back: as written never. */
  predicate FormMoves(b: Build, w: Flag) {
    b.baseValue && w == 1
  }

  lemma BlockDispatched(b: Build, s: State, cond: FourBits, p: Flag, u: Flag, sb: Flag, w: Flag, l: Flag,
                        rn: FourBits, list: nat)
    requires Condition(Cpsr(s), cond) && list < 0x1_0000
    ensures var ins := CodedBlock(cond, p, u, sb, w, l, rn, list);
      && Dispatched(b, s, ins) == Multiple(b, s, ins)
      && Cond(ins) == cond && Bit22(ins) == sb && Bit20(ins) == l && Rn(ins) == rn && RegisterList(ins) == list
      && StartAddress(b, s, ins) == FormStart(b, s, p, u, rn, list)
      && Rebased(b, s, ins) == if FormMoves(b, w) then WriteR(b, s, rn, FormBase(s, u, rn, list)) else s
  {
    hide Condition, Multiple, ReadR, WriteR, CodedBlock, Count, Trunc;
    hide Cond, TypeOp, Bit24, Bit23, Bit22, Bit21, Bit20, Rn, RegisterList;
    BlockFields(cond, p, u, sb, w, l, rn, list);
  }

  lemma RebasedViews(b: Build, s: State, w: Flag, rn: FourBits, base: Word)
    requires Known(ModeOf(s))
    ensures var s1 := if FormMoves(b, w) then WriteR(b, s, rn, base) else s;
      && s1.mem == s.mem && ModeOf(s1) == ModeOf(s)
      && Transferred(s, s1, rn, FormMoves(b, w), base, 0, false, 0)
  {
    hide ReadR, WriteR, Known, ModeOf;
    WriteViews(b, s, rn, base);
  }

  lemma RebasedSource(b: Build, s: State, w: Flag, rn: FourBits, base: Word, rd: FourBits, user: bool)
    requires Known(ModeOf(s))
    ensures var s1 := if FormMoves(b, w) then WriteR(b, s, rn, base) else s;
      (if user then ReadUsrR(s1, rd) else ReadR(s1, rd)) == Source(s, rn, FormMoves(b, w), base, rd, user)
  {
    hide PcSeen;
    RebasedViews(b, s, w, rn, base);
    UserCells(b, s, rn, base, rd);
    UserRead(s.regs, ModeOf(s), rd);
    hide Cell, PhysicalOf, Write, Known;
  }

  /** STM in all its forms: register i of the list, or with S that of USR mode, is at the
      start plus 4 for each listed register below i; the base moves with W if repaired;
      no other byte, register or flag changes. */
  lemma BlockStore(b: Build, s: State, cond: FourBits, p: Flag, u: Flag, sb: Flag, w: Flag, rn: FourBits, list: nat)
    requires s.stop == Running && Known(ModeOf(s)) && Condition(Cpsr(s), cond) && list < 0x1_0000
    requires Fits(s.mem, FormStart(b, s, p, u, rn, list), list)
    ensures var start := FormStart(b, s, p, u, rn, list);
      var s' := Dispatched(b, s, CodedBlock(cond, p, u, sb, w, 0, rn, list));
      && Transferred(s, s', rn, FormMoves(b, w), FormBase(s, u, rn, list), 0, false, 0)
      && |s'.mem.bytes| == |s.mem.bytes|
      && (forall i: nat :: i < 16 && Bit(list, i) == 1 ==>
            Place(start, list, i) + 4 <= |s.mem.bytes| && Load(s'.mem, Place(start, list, i), W4)
              == Source(s, rn, FormMoves(b, w), FormBase(s, u, rn, list), i, sb == 1))
      && (forall a: nat :: a < |s.mem.bytes| && !(start <= a < Place(start, list, 16)) ==>
            s'.mem.bytes[a] == s.mem.bytes[a])
  {
    hide Condition, Cond, Dispatched, ReadR, ReadUsrR, WriteR, Source, Multiple, CodedBlock, Count, RegisterList, Rn;
    hide Bit20, Bit22, StartAddress, Rebased, FormStart, FormBase, FormMoves, Load, Fits, Bit, Known, ModeOf;
    BlockDispatched(b, s, cond, p, u, sb, w, 0, rn, list);
    var ins, base := CodedBlock(cond, p, u, sb, w, 0, rn, list), FormBase(s, u, rn, list);
    StoreMultiple(b, s, ins);
    var s1 := Rebased(b, s, ins);
    RebasedViews(b, s, w, rn, base);
    SameViews(s1, Multiple(b, s, ins));
    forall i: nat | i < 16 && Bit(list, i) == 1
      ensures StoredValue(s1, ins, i) == Source(s, rn, FormMoves(b, w), base, i, sb == 1)
    {
      RebasedSource(b, s, w, rn, base, i, sb == 1);
    }
  }

  lemma SameViews(s: State, s': State)
    requires s'.regs == s.regs
    ensures Cpsr(s') == Cpsr(s) && forall r: nat :: ReadR(s', r) == ReadR(s, r)
  {
  }

  lemma {:induction false} LoadsKeepPc(b: Build, c: Cursor, list: nat, n: nat)
    requires n <= 15
    ensures LoadUpTo(b, c, list, n).s.regs[PC] == c.s.regs[PC]
  {
    if n > 0 {
      LoadsKeepPc(b, c, list, n - 1);
      OneKeepsPc(b, LoadUpTo(b, c, list, n - 1), list, n - 1);
    }
    hide LoadOne;
  }

  lemma OneKeepsPc(b: Build, d: Cursor, list: nat, i: nat)
    requires i < 15
    ensures LoadOne(b, d, list, i).s.regs[PC] == d.s.regs[PC]
  {
    forall v: Word ensures WriteR(b, d.s, i, v).regs[PC] == d.s.regs[PC] {
    }
    hide WriteR, Peek, Bit;
  }

  /** What the PC holds after a load: its word with S, the status 0 without, as line 157
      has it; in a mode without an SPSR S keeps it. */
  function FormPc(s: State, sb: Flag, list: nat, start: Word, kept: Word): Word
    requires Bit(list, 15) == 1 ==> Place(start, list, 15) + 4 <= |s.mem.bytes|
  {
    if Bit(list, 15) == 0 || (sb == 1 && !HasSpsr(ModeOf(s))) then kept
    else if sb == 1 then Load(s.mem, Place(start, list, 15), W4) else 0
  }

  lemma PlaceFits(m: Mem, start: Word, list: nat, i: nat)
    requires Fits(m, start, list) && i < 16 && Bit(list, i) == 1
    ensures Place(start, list, i) + 4 <= |m.bytes|
  {
    InPlace(start, list, i, m);
  }

  /** LDM in all its forms: register i of the list receives the word at the start plus 4
      for each listed register below i; the base moves with W if repaired, unless it is
      loaded; the other registers, the CPSR and memory are kept. A load with the PC for
      base asks for its condition of the word 0 as well. */
  lemma BlockLoad(b: Build, s: State, cond: FourBits, p: Flag, u: Flag, sb: Flag, w: Flag, rn: FourBits, list: nat)
    requires s.stop == Running && Known(ModeOf(s)) && Condition(Cpsr(s), cond) && list < 0x1_0000
    requires rn == PC ==> Condition(0, cond)
    requires Fits(s.mem, FormStart(b, s, p, u, rn, list), list)
    ensures var start := FormStart(b, s, p, u, rn, list);
      var s' := Dispatched(b, s, CodedBlock(cond, p, u, sb, w, 1, rn, list));
      && s'.mem == s.mem && s'.stop == Running && Cpsr(s') == Cpsr(s)
      && (forall i: nat :: i < 15 && Bit(list, i) == 1 ==>
            Place(start, list, i) + 4 <= |s.mem.bytes| && ReadR(s', i) == Load(s.mem, Place(start, list, i), W4))
      && (forall i: nat :: i < 15 && Bit(list, i) == 0 ==>
            ReadR(s', i) == if FormMoves(b, w) && i == rn then FormBase(s, u, rn, list) else ReadR(s, i))
      && (Bit(list, 15) == 1 ==> Place(start, list, 15) + 4 <= |s.mem.bytes|)
      && s'.regs[PC] == FormPc(s, sb, list, start,
                               if FormMoves(b, w) && rn == PC then FormBase(s, u, rn, list) else s.regs[PC])
  {
    hide Condition, Cond, Dispatched, ReadR, WriteR, Multiple, CodedBlock, Count, RegisterList, Rn, LoadPc, AfterLow;
    hide Bit20, Bit22, StartAddress, Rebased, FormStart, FormBase, FormMoves, Load, Fits, Bit, Known, HasSpsr, Trunc;
    BlockDispatched(b, s, cond, p, u, sb, w, 1, rn, list);
    var ins, start := CodedBlock(cond, p, u, sb, w, 1, rn, list), FormStart(b, s, p, u, rn, list);
    var base := FormBase(s, u, rn, list);
    LoadMultiple(b, s, ins);
    LowLoaded(b, s, ins);
    RebasedViews(b, s, w, rn, base);
    AfterLowPc(b, s, ins);
    if Bit(list, 15) == 1 {
      PlaceFits(s.mem, start, list, 15);
    }
    PcLoads(b, AfterLow(b, s, ins), ins, s.mem, start);
    if Bit(list, 15) == 0 || NoSpsr(s, ins) {
      PcUntouched(b, AfterLow(b, s, ins), ins);
    }
  }

  lemma AfterLowPc(b: Build, s: State, ins: Word)
    ensures AfterLow(b, s, ins).s.regs[PC] == Rebased(b, s, ins).regs[PC]
  {
    hide StartAddress, Rebased, LoadUpTo, RegisterList;
    LoadsKeepPc(b, Cursor(Rebased(b, s, ins), StartAddress(b, s, ins), b.host.junk), RegisterList(ins), 15);
  }

  lemma PcUntouched(b: Build, d: Cursor, ins: Word)
    requires !Listed(RegisterList(ins), 15) || NoSpsr(d.s, ins)
    ensures LoadPc(b, d, ins) == d.s
  {
    hide RegisterList, Bit, Bit22, Peek, HasSpsr;
  }

  /** With the PC for base a load whose condition does not hold of the word 0 does nothing. */
  lemma BlockUnloaded(b: Build, s: State, cond: FourBits, p: Flag, u: Flag, sb: Flag, w: Flag, list: nat)
    requires Condition(Cpsr(s), cond) && !Condition(0, cond) && list < 0x1_0000
    ensures Dispatched(b, s, CodedBlock(cond, p, u, sb, w, 1, PC, list)) == s
  {
    hide Condition, CodedBlock, Cond, Bit20, Rn, RegisterList, StartAddress, Rebased, Bit22;
    BlockDispatched(b, s, cond, p, u, sb, w, 1, PC, list);
    hide Dispatched;
  }

  // ---------- data processing ----------

  /** What an operation leaves: its result in Rd, unless it is a test, nothing else but
      the flags, and those only with S or for a test. */
  ghost predicate Operated(s: State, s': State, op: FourBits, sb: Flag, rd: FourBits, result: Word) {
    && s'.mem == s.mem && s'.stop == s.stop && Cpsr(s') % 0x1000_0000 == Cpsr(s) % 0x1000_0000
    && (!(8 <= op <= 11) && (sb == 0 || rd == PC) ==> Cpsr(s') == Cpsr(s))
    && (forall r: nat :: r < 15 ==> ReadR(s', r) == if !(8 <= op <= 11) && r == rd then result else ReadR(s, r))
    && s'.regs[PC] == if !(8 <= op <= 11) && rd == PC then result else s.regs[PC]
  }

  lemma OperationLeaves(b: Build, s: State, ins: Word)
    requires Known(ModeOf(s)) && Rd(ins) < 16 && Opcode(ins) < 16
    ensures Operated(s, Executed(b, s, ins), Opcode(ins), Bit20(ins), Rd(ins), ResultOf(b, s, ins))
  {
    hide SecondOperand, Alu, ArithFlags, Pack, FlagsOf, Bit31, CFlag, Opcode, Rd, Bit20, ReadR, WriteR, Known, ModeOf;
    var result := ResultOf(b, s, ins);
    var s1 := if IsTest(Opcode(ins)) then s else WriteR(b, s, Rd(ins), result);
    WriteViews(b, s, Rd(ins), result);
    var f := NewFlags(b, s1, ins, result, SecondOperand(b, s, ins).1, FirstOf(s, ins), SecondOf(b, s, ins));
    assert Executed(b, s, ins) == WithCpsr(s1, Pack(Cpsr(s1), f));
    PackSplits(Cpsr(s1), f);
    FlagsSplit(Cpsr(s1));
    assert !IsTest(Opcode(ins)) && (Bit20(ins) == 0 || Rd(ins) == PC) ==> f == FlagsOf(Cpsr(s1));
    hide NewFlags, Executed;
    CpsrReplaced(s1, Pack(Cpsr(s1), f));
  }

  lemma CpsrReplaced(s: State, cpsr: Word)
    requires cpsr % 0x1000_0000 == Cpsr(s) % 0x1000_0000
    ensures forall r: nat :: r <= 15 ==> ReadR(WithCpsr(s, cpsr), r) == ReadR(s, r)
    ensures WithCpsr(s, cpsr).regs[PC] == s.regs[PC] && Cpsr(WithCpsr(s, cpsr)) == cpsr
  {
    LowFive(cpsr);
    LowFive(Cpsr(s));
    forall r: nat | r <= 15 ensures ReadR(WithCpsr(s, cpsr), r) == ReadR(s, r) {
      CpsrIsNoRegister(s, cpsr, r);
    }
    hide ReadR;
  }

  /** The sixteen operations on Rn and a second operand v: fourteen yield what section
      A3.4 asks, and BIC and MVN work with the logical negation of v. */
  ghost predicate Yields(s: State, s': State, op: FourBits, sb: Flag, rn: FourBits, rd: FourBits, v: Word) {
    var a, c := ReadR(s, rn), CFlag(Cpsr(s));
    exists r: Word :: Operated(s, s', op, sb, rd, r) &&
      (if op == 14 then r == And(a, ToFlag(v == 0)) else if op == 15 then r == ToFlag(v == 0)
       else IsResult(op, a, v, c, r))
  }

  lemma OperationYields(b: Build, s: State, ins: Word)
    requires Known(ModeOf(s)) && Rd(ins) < 16 && Opcode(ins) < 16 && Rn(ins) < 16
    ensures Yields(s, Executed(b, s, ins), Opcode(ins), Bit20(ins), Rn(ins), Rd(ins), SecondOperand(b, s, ins).0)
  {
    var a, v, c := ReadR(s, Rn(ins)), SecondOperand(b, s, ins).0, CFlag(Cpsr(s));
    assert Opcode(ins) == 14 ==> Alu(Opcode(ins), a, v, c) == And(a, ToFlag(v == 0));
    assert Opcode(ins) == 15 ==> Alu(Opcode(ins), a, v, c) == ToFlag(v == 0);
    hide SecondOperand, Alu, CFlag, Opcode, Rd, Rn, Bit20, ReadR, Executed, Operated, IsResult, And, Known, ModeOf;
    OperationLeaves(b, s, ins);
    AluExact(Opcode(ins), a, v, c);
    var r := ResultOf(b, s, ins);
    assert Operated(s, Executed(b, s, ins), Opcode(ins), Bit20(ins), Rd(ins), r);
  }

  lemma ImmediateForm(b: Build, s: State, cond: FourBits, op: FourBits, sb: Flag, rn: FourBits, rd: FourBits,
                      rotate: FourBits, imm: Byte)
    requires Known(ModeOf(s)) && Condition(Cpsr(s), cond)
    ensures Yields(s, Dispatched(b, s, CodedImmediate(cond, op, sb, rn, rd, rotate, imm)), op, sb, rn, rd, imm)
  {
    hide Condition, CodedImmediate, Executed, Yields, Known, ModeOf, SecondOperand;
    hide Cond, TypeOp, Bit25, Opcode, Bit20, Rn, Rd, Rs, Imm8, Imm12;
    ImmediateFields(cond, op, sb, rn, rd, rotate, imm);
    var ins := CodedImmediate(cond, op, sb, rn, rd, rotate, imm);
    ImmediateOperand(b, s, ins);
    OperationYields(b, s, ins);
  }

  /** A register shifted by a field, right as section A5.1 has it with the shifter repaired
      or, for this operand, as written. */
  lemma FieldForm(b: Build, s: State, cond: FourBits, op: FourBits, sb: Flag, rn: FourBits, rd: FourBits,
                  imm: nat, kind: nat, rm: FourBits)
    requires Known(ModeOf(s)) && Condition(Cpsr(s), cond) && imm < 32 && kind < 4
    requires var o := Operand(kind, false, ReadR(s, rm), ReadR(s, imm / 2) % 0x100, imm, CFlag(Cpsr(s)));
      b.shifter || ValueGuard(s, o)
    ensures var o := Operand(kind, false, ReadR(s, rm), ReadR(s, imm / 2) % 0x100, imm, CFlag(Cpsr(s)));
      Yields(s, Dispatched(b, s, CodedByField(cond, op, sb, rn, rd, imm, kind, rm)), op, sb, rn, rd, Manual(o).0)
  {
    hide Condition, CodedByField, Executed, Yields, Known, ModeOf, SecondOperand, Manual, ValueGuard, ReadR, CFlag;
    hide Cond, TypeOp, Bit25, Opcode, Bit20, Rn, Rd, Rs, Rm, Bit4, ShiftKind, ShiftImm, Imm12;
    ByFieldFields(cond, op, sb, rn, rd, imm, kind, rm);
    var ins := CodedByField(cond, op, sb, rn, rd, imm, kind, rm);
    ShiftedOperand(b, s, ins);
    OperationYields(b, s, ins);
  }

  lemma ShiftedOperand(b: Build, s: State, ins: Word)
    requires Bit25(ins) == 0 && (b.shifter || ValueGuard(s, OperandOf(s, ins)))
    ensures SecondOperand(b, s, ins).0 == Manual(OperandOf(s, ins)).0
  {
    hide ReadR, Manual, ValueGuard, Repaired, WrittenValue, WrittenCarry, Bit25, Rm, Rs, CFlag, OperandOf;
    OperandInFields(s, ins);
    if b.shifter {
      RepairedMeetsManual(b.host, OperandOf(s, ins));
    } else {
      WrittenValueRight(b.host, s, OperandOf(s, ins));
    }
  }

  /** A register shifted by the low byte of a register. */
  lemma RegisterForm(b: Build, s: State, cond: FourBits, op: FourBits, sb: Flag, rn: FourBits, rd: FourBits,
                     rs: FourBits, kind: nat, rm: FourBits)
    requires Known(ModeOf(s)) && Condition(Cpsr(s), cond) && kind < 4
    requires var o := Operand(kind, true, ReadR(s, rm), ReadR(s, rs) % 0x100, rs * 2, CFlag(Cpsr(s)));
      b.shifter || ValueGuard(s, o)
    ensures var o := Operand(kind, true, ReadR(s, rm), ReadR(s, rs) % 0x100, rs * 2, CFlag(Cpsr(s)));
      Yields(s, Dispatched(b, s, CodedByRegister(cond, op, sb, rn, rd, rs, kind, rm)), op, sb, rn, rd, Manual(o).0)
  {
    hide Condition, CodedByRegister, Executed, Yields, Known, ModeOf, SecondOperand, Manual, ValueGuard, ReadR, CFlag;
    hide Cond, TypeOp, Bit25, Opcode, Bit20, Rn, Rd, Rs, Rm, Bit4, Bit7, ShiftKind, ShiftImm;
    ByRegisterFields(cond, op, sb, rn, rd, rs, kind, rm);
    var ins := CodedByRegister(cond, op, sb, rn, rd, rs, kind, rm);
    ShiftedOperand(b, s, ins);
    OperationYields(b, s, ins);
  }
}
