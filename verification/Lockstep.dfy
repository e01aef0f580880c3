/** USR and SYS cannot be told apart by any program. */
module Lockstep {
  import opened Words
  import opened Builds
  import opened Registers
  import opened RegisterLaws
  import opened Memory
  import opened Core
  import opened Fields
  import opened Decode
  import opened DataProcessing
  import opened Branch
  import opened LoadStore
  import opened BlockTransfer
  import opened Instruction

  /** The state that differs from a USR state only in having the SYS mode bits. */
  function AsSys(s: State): State
    requires ModeOf(s) == USR
  {
    WithCpsr(s, Cpsr(s) + 15)
  }

  lemma SysBits(cpsr: Word)
    requires cpsr % 32 == USR
    ensures cpsr + 15 < 0x1_0000_0000 && (cpsr + 15) % 32 == SYS
    ensures FlagsOf(cpsr + 15) == FlagsOf(cpsr)
  {
    LowFive(cpsr);
    FifteenMore(cpsr, 0x1000_0000);
    TopOfNibble(cpsr);
    TopOfNibble(cpsr + 15);
    DivModUnique(cpsr + 15, 32, cpsr / 32, 31);
    hide FlagsOf;
  }

  lemma SysPack(cpsr: Word, f: Flags)
    requires cpsr % 32 == USR
    ensures cpsr + 15 < 0x1_0000_0000 && Pack(cpsr, f) % 32 == USR
    ensures Pack(cpsr, f) + 15 < 0x1_0000_0000
    ensures Pack(cpsr + 15, f) == Pack(cpsr, f) + 15
  {
    SysBits(cpsr);
    FifteenMore(cpsr, 0x1000_0000);
    PackSplits(cpsr, f);
    LowFive(cpsr);
    LowFive(Pack(cpsr, f));
    SysBits(Pack(cpsr, f));
    hide FlagsOf;
  }

  lemma FifteenMore(cpsr: Word, d: nat)
    requires cpsr % 32 == USR && d == 0x1000_0000
    ensures (cpsr + 15) / d == cpsr / d && (cpsr + 15) % d == cpsr % d + 15
  {
    LowFive(cpsr);
    var q, r := cpsr / 0x1000_0000, cpsr % 0x1000_0000;
    assert r == r / 32 * 32 + 16;
    DivModUnique(cpsr + 15, 0x1000_0000, q, r + 15);
  }

  /** Reads agree, and writes commute with the change of mode bits. */
  lemma ReadsAgree(s: State, reg: nat)
    requires ModeOf(s) == USR
    ensures ReadR(AsSys(s), reg) == ReadR(s, reg)
    ensures ReadUsrR(AsSys(s), reg) == ReadUsrR(s, reg)
  {
    SysBits(Cpsr(s));
    hide PcSeen, Pack;
  }

  lemma WritesCommute(b: Build, s: State, reg: nat, value: Word)
    requires ModeOf(s) == USR
    ensures ModeOf(WriteR(b, s, reg, value)) == USR
    ensures WriteR(b, AsSys(s), reg, value) == AsSys(WriteR(b, s, reg, value))
  {
    SysBits(Cpsr(s));
    hide Pack;
    WriteKeepsCpsr(b.loneBank, s.regs, reg, value);
    assert WriteR(b, AsSys(s), reg, value).regs == AsSys(WriteR(b, s, reg, value)).regs;
  }

  lemma ConditionsAgree(s: State, cond: nat)
    requires ModeOf(s) == USR
    ensures Condition(Cpsr(AsSys(s)), cond) == Condition(Cpsr(s), cond)
    ensures FlagsOf(Cpsr(AsSys(s))) == FlagsOf(Cpsr(s))
    ensures CFlag(Cpsr(AsSys(s))) == CFlag(Cpsr(s))
  {
    SysBits(Cpsr(s));
    hide Pack;
    var x, y := Cpsr(s), Cpsr(s) + 15;
    assert NFlag(x) == NFlag(y) && ZFlag(x) == ZFlag(y) && CFlag(x) == CFlag(y) && VFlag(x) == VFlag(y);
    hide NFlag, ZFlag, CFlag, VFlag;
  }

  lemma OperandsAgree(b: Build, s: State, ins: Word)
    requires ModeOf(s) == USR
    ensures Shifted(b, AsSys(s), OperandOf(AsSys(s), ins)) == Shifted(b, s, OperandOf(s, ins))
    ensures SecondOperand(b, AsSys(s), ins) == SecondOperand(b, s, ins)
  {
    ReadsAgree(s, Rm(ins));
    ReadsAgree(s, Rs(ins));
    ConditionsAgree(s, 0);
    hide ReadR, CFlag, Condition, GetBit, Shl, Shr, Asr, Ror, Rrx, Rm, Rs;
    var o := OperandOf(s, ins);
    assert OperandOf(AsSys(s), ins) == o;
    hide OperandOf;
    ReadsAgree(s, o.rm % 0x100);
    var value := WrittenValue(b.host, s, o);
    assert WrittenValue(b.host, AsSys(s), o) == value;
    hide WrittenValue;
    ReadsAgree(s, value % 0x100);
    hide AsSys;
  }

  lemma FlagsAgree(b: Build, s: State, ins: Word, alu: Word, carry: Flag, a: Word, v: Word)
    requires ModeOf(s) == USR
    ensures NewFlags(b, AsSys(s), ins, alu, carry, a, v) == NewFlags(b, s, ins, alu, carry, a, v)
  {
    ReadsAgree(s, Rd(ins));
    ConditionsAgree(s, 0);
    hide ReadR, FlagsOf, ArithFlags, Condition, AsSys, Bit31, Opcode;
  }

  lemma CpsrCommutes(s: State, f: Flags)
    requires ModeOf(s) == USR
    ensures ModeOf(WithCpsr(s, Pack(Cpsr(s), f))) == USR
    ensures WithCpsr(AsSys(s), Pack(Cpsr(AsSys(s)), f)) == AsSys(WithCpsr(s, Pack(Cpsr(s), f)))
  {
    hide Pack;
    SysPack(Cpsr(s), f);
    SysBits(Cpsr(s));
    SysAfter(s, Pack(Cpsr(s), f));
  }

  lemma SysAfter(s: State, cpsr: Word)
    requires ModeOf(s) == USR && cpsr % 32 == USR && cpsr + 15 < 0x1_0000_0000
    ensures Cpsr(AsSys(s)) == Cpsr(s) + 15
    ensures ModeOf(WithCpsr(s, cpsr)) == USR
    ensures WithCpsr(AsSys(s), cpsr + 15) == AsSys(WithCpsr(s, cpsr))
  {
    SysBits(Cpsr(s));
    hide FlagsOf;
    assert WithCpsr(AsSys(s), cpsr + 15).regs == AsSys(WithCpsr(s, cpsr)).regs;
  }

  lemma ProcessedCommutes(b: Build, s: State, ins: Word)
    requires ModeOf(s) == USR
    ensures ModeOf(Processed(b, s, ins)) == USR
    ensures Processed(b, AsSys(s), ins) == AsSys(Processed(b, s, ins))
  {
    ConditionsAgree(s, Cond(ins));
    OperandsAgree(b, s, ins);
    ReadsAgree(s, Rn(ins));
    hide SecondOperand, ReadR, Alu, Pack, NewFlags, Condition, Opcode, Rd, Rn, CFlag, FlagsOf, Shifted;
    var (v, carry) := SecondOperand(b, s, ins);
    var a := ReadR(s, Rn(ins));
    var alu := Alu(Opcode(ins), a, v, CFlag(Cpsr(s)));
    WritesCommute(b, s, Rd(ins), alu);
    hide WriteR, AsSys, Cond;
    var s1 := if IsTest(Opcode(ins)) then s else WriteR(b, s, Rd(ins), alu);
    FlagsAgree(b, s1, ins, alu, carry, a, v);
    CpsrCommutes(s1, NewFlags(b, s1, ins, alu, carry, a, v));
    hide WithCpsr, Cpsr;
  }

  lemma BranchedCommutes(b: Build, s: State, ins: Word)
    requires ModeOf(s) == USR
    ensures ModeOf(Branched(b, s, ins)) == USR
    ensures Branched(b, AsSys(s), ins) == AsSys(Branched(b, s, ins))
  {
    hide ReadR, WriteR, AsSys, SignedExtend30, Cond, Bit24, Trunc;
    ReadsAgree(s, PC);
    var link := Trunc(ReadR(s, PC) - 4);
    WritesCommute(b, s, 14, link);
    var s1 := if Bit24(ins) == 1 then WriteR(b, s, 14, link) else s;
    ReadsAgree(s1, PC);
    WritesCommute(b, s1, PC, Trunc(ReadR(s1, PC) + 4 * SignedExtend30(b, ins)));
  }

  lemma PeeksAgree(s: State, a: Word, w: Width)
    requires ModeOf(s) == USR
    ensures Peek(AsSys(s), a, w) == Peek(s, a, w)
    ensures AsSys(s).stop == s.stop && AsSys(s).mem == s.mem
    ensures AsSys(s.(stop := Overrun)) == AsSys(s).(stop := Overrun)
    ensures AsSys(s.(stop := Exited)) == AsSys(s).(stop := Exited)
  {
    hide Refused, Load;
  }

  lemma PokesCommute(s: State, a: Word, w: Width, v: Word)
    requires ModeOf(s) == USR
    ensures ModeOf(Poke(s, a, w, v)) == USR
    ensures Poke(AsSys(s), a, w, v) == AsSys(Poke(s, a, w, v))
  {
    hide Refused, Store;
  }

  lemma LoadsCommute(b: Build, s: State, a: Word, w: Width, rd: nat)
    requires ModeOf(s) == USR
    ensures ModeOf(LoadTo(b, s, a, w, rd)) == USR
    ensures LoadTo(b, AsSys(s), a, w, rd) == AsSys(LoadTo(b, s, a, w, rd))
  {
    PeeksAgree(s, a, w);
    hide Peek, WriteR, AsSys;
    if Peek(s, a, w).Value? {
      WritesCommute(b, s, rd, Peek(s, a, w).value);
    }
  }

  lemma SignedLoadsCommute(b: Build, s: State, a: Word, w: Width, rd: nat)
    requires ModeOf(s) == USR && w != W4
    ensures ModeOf(LoadSigned(b, s, a, w, rd)) == USR
    ensures LoadSigned(b, AsSys(s), a, w, rd) == AsSys(LoadSigned(b, s, a, w, rd))
  {
    PeeksAgree(s, a, w);
    hide WriteR, AsSys, SignExtended, Load;
    match Peek(s, a, w)
    case Value(v) =>
      LoadBound(s.mem, a, w);
      WritesCommute(b, s, rd, SignExtended(b, v, if w == B1 then 0x80 else 0x8000));
    case Denied =>
    case Beyond =>
  }

  lemma MovesCommute(b: Build, s: State, ins: Word, offset: nat)
    requires ModeOf(s) == USR
    ensures ModeOf(Moved(b, s, ins, offset)) == USR
    ensures Moved(b, AsSys(s), ins, offset) == AsSys(Moved(b, s, ins, offset))
  {
    ConditionsAgree(s, Cond(ins));
    ReadsAgree(s, Rn(ins));
    hide ReadR, WriteR, AsSys, HandlingOffset, Condition, Rn;
    WritesCommute(b, s, Rn(ins), HandlingOffset(ReadR(s, Rn(ins)), offset, Bit23(ins)));
  }

  lemma WordByteCommutes(b: Build, s: State, ins: Word)
    requires ModeOf(s) == USR
    ensures ModeOf(WordByte(b, s, ins)) == USR
    ensures WordByte(b, AsSys(s), ins) == AsSys(WordByte(b, s, ins))
  {
    ReadsAgree(s, Rm(ins));
    ReadsAgree(s, Rn(ins));
    OperandsAgree(b, s, ins);
    hide ReadR, ReadUsrR, AsSys, Shifted, SecondOperand, LoadTo, Poke, Moved, HandlingOffset, OperandOf, Rm, Rn, Rd;
    var offset := WordOffset(b, s, ins);
    assert WordOffset(b, AsSys(s), ins) == offset;
    hide WordOffset;
    MovesCommute(b, s, ins, offset);
    var s1 := Moved(b, s, ins, offset);
    ReadsAgree(s1, Rd(ins));
    var a, w := WordAddress(b, s, ins), if Bit22(ins) == 0 then W4 else B1;
    assert WordAddress(b, AsSys(s), ins) == a;
    hide WordAddress;
    LoadsCommute(b, s1, a, w, Rd(ins));
    var value := if Bit24(ins) == 0 && Bit21(ins) == 1 then ReadUsrR(s1, Rd(ins)) else ReadR(s1, Rd(ins));
    PokesCommute(s1, a, w, if w == B1 then value % 0x100 else value);
    hide Bit20, Bit21, Bit22, Bit24;
  }

  lemma HalfByteCommutes(b: Build, s: State, ins: Word, a: Word)
    requires ModeOf(s) == USR
    ensures ModeOf(HalfByte(b, s, ins, a)) == USR
    ensures HalfByte(b, AsSys(s), ins, a) == AsSys(HalfByte(b, s, ins, a))
  {
    ConditionsAgree(s, Cond(ins));
    ReadsAgree(s, Rd(ins));
    hide ReadR, AsSys, LoadTo, LoadSigned, Poke, Condition, Rd;
    PokesCommute(s, a, H2, ReadR(s, Rd(ins)) % 0x1_0000);
    LoadsCommute(b, s, a, H2, Rd(ins));
    SignedLoadsCommute(b, s, a, B1, Rd(ins));
    SignedLoadsCommute(b, s, a, H2, Rd(ins));
  }

  lemma MiscellaneousCommutes(b: Build, s: State, ins: Word)
    requires ModeOf(s) == USR
    ensures ModeOf(Miscellaneous(b, s, ins)) == USR
    ensures Miscellaneous(b, AsSys(s), ins) == AsSys(Miscellaneous(b, s, ins))
  {
    ReadsAgree(s, Rm(ins));
    ReadsAgree(s, Rn(ins));
    hide ReadR, AsSys, HalfByte, Moved, HandlingOffset, Rm, Rn;
    var offset := HalfOffset(s, ins);
    assert HalfOffset(AsSys(s), ins) == offset;
    hide HalfOffset;
    MovesCommute(b, s, ins, offset);
    var a := if Bit24(ins) == 0 then ReadR(s, Rn(ins)) else HandlingOffset(ReadR(s, Rn(ins)), offset, Bit23(ins));
    HalfByteCommutes(b, Moved(b, s, ins, offset), ins, a);
  }

  function SysCursor(c: Cursor): Cursor
    requires ModeOf(c.s) == USR
  {
    c.(s := AsSys(c.s))
  }

  lemma LoadOneCommutes(b: Build, c: Cursor, list: nat, i: nat)
    requires ModeOf(c.s) == USR
    ensures ModeOf(LoadOne(b, c, list, i).s) == USR
    ensures LoadOne(b, SysCursor(c), list, i) == SysCursor(LoadOne(b, c, list, i))
  {
    PeeksAgree(c.s, c.address, W4);
    hide Peek, WriteR, AsSys, Bit, Trunc;
    WritesCommute(b, c.s, i, c.value);
    if Peek(c.s, c.address, W4).Value? {
      WritesCommute(b, c.s, i, Peek(c.s, c.address, W4).value);
    }
  }

  lemma {:induction false} LoadUpToCommutes(b: Build, c: Cursor, list: nat, n: nat)
    requires ModeOf(c.s) == USR
    ensures ModeOf(LoadUpTo(b, c, list, n).s) == USR
    ensures LoadUpTo(b, SysCursor(c), list, n) == SysCursor(LoadUpTo(b, c, list, n))
  {
    hide LoadOne, AsSys;
    if n > 0 {
      LoadUpToCommutes(b, c, list, n - 1);
      var d := LoadUpTo(b, c, list, n - 1);
      PeeksAgree(d.s, d.address, W4);
      LoadOneCommutes(b, d, list, n - 1);
    }
  }

  lemma StoreOneCommutes(c: Cursor, ins: Word, i: nat)
    requires ModeOf(c.s) == USR
    ensures ModeOf(StoreOne(c, ins, i).s) == USR
    ensures StoreOne(SysCursor(c), ins, i) == SysCursor(StoreOne(c, ins, i))
  {
    ReadsAgree(c.s, i);
    hide ReadR, ReadUsrR, Poke, AsSys, Bit, Trunc, RegisterList;
    var value := StoredValue(c.s, ins, i);
    PokesCommute(c.s, c.address, W4, value);
    PeeksAgree(Poke(c.s, c.address, W4, value), c.address, W4);
  }

  lemma {:induction false} StoreUpToCommutes(c: Cursor, ins: Word, n: nat)
    requires ModeOf(c.s) == USR
    ensures ModeOf(StoreUpTo(c, ins, n).s) == USR
    ensures StoreUpTo(SysCursor(c), ins, n) == SysCursor(StoreUpTo(c, ins, n))
  {
    hide StoreOne, AsSys;
    if n > 0 {
      StoreUpToCommutes(c, ins, n - 1);
      var d := StoreUpTo(c, ins, n - 1);
      PeeksAgree(d.s, d.address, W4);
      StoreOneCommutes(d, ins, n - 1);
    }
  }

  lemma LoadPcCommutes(b: Build, c: Cursor, ins: Word)
    requires ModeOf(c.s) == USR
    ensures ModeOf(LoadPc(b, c, ins)) == USR
    ensures LoadPc(b, SysCursor(c), ins) == AsSys(LoadPc(b, c, ins))
  {
    PeeksAgree(c.s, c.address, W4);
    SysBits(Cpsr(c.s));
    assert ModeOf(AsSys(c.s)) == SYS;
    hide Peek, WriteR, AsSys, Bit, RegisterList, Pack;
    WritesCommute(b, c.s, PC, if Bit22(ins) == 1 then c.value else 0xFFFF_FFFE);
    if Peek(c.s, c.address, W4).Value? {
      WritesCommute(b, c.s, PC, if Bit22(ins) == 1 then Peek(c.s, c.address, W4).value else 0);
    }
  }

  lemma MultipleCommutes(b: Build, s: State, ins: Word)
    requires ModeOf(s) == USR
    ensures ModeOf(Multiple(b, s, ins)) == USR
    ensures Multiple(b, AsSys(s), ins) == AsSys(Multiple(b, s, ins))
  {
    AddressesAgree(b, s, ins);
    hide Condition, Cond, TestedCpsr, StartAddress, Rebased, AsSys, LoadUpTo, StoreUpTo, LoadPc, RegisterList, Bit20;
    var c := Cursor(Rebased(b, s, ins), StartAddress(b, s, ins), b.host.junk);
    LoadUpToCommutes(b, c, RegisterList(ins), 15);
    StoreUpToCommutes(c, ins, 16);
    var d := LoadUpTo(b, c, RegisterList(ins), 15);
    PeeksAgree(d.s, d.address, W4);
    LoadPcCommutes(b, d, ins);
  }

  lemma AddressesAgree(b: Build, s: State, ins: Word)
    requires ModeOf(s) == USR
    ensures Condition(TestedCpsr(AsSys(s), ins), Cond(ins)) == Condition(TestedCpsr(s, ins), Cond(ins))
    ensures StartAddress(b, AsSys(s), ins) == StartAddress(b, s, ins)
    ensures ModeOf(Rebased(b, s, ins)) == USR
    ensures Rebased(b, AsSys(s), ins) == AsSys(Rebased(b, s, ins))
  {
    hide ReadR, WriteR, AsSys, Rn, Cond, Count, RegisterList, Trunc, Condition, Bit20, Bit21, Decrements, Bit24;
    BasesAgree(b, s, ins);
    hide Base;
    ConditionsAgree(s, Cond(ins));
    WritesCommute(b, s, Rn(ins), NewBase(b, s, ins));
    assert NewBase(b, AsSys(s), ins) == NewBase(b, s, ins);
    hide NewBase;
  }

  lemma BasesAgree(b: Build, s: State, ins: Word)
    requires ModeOf(s) == USR
    ensures Base(b, AsSys(s), ins) == Base(b, s, ins)
  {
    ReadsAgree(s, Rn(ins));
    hide ReadR, AsSys, Rn;
  }

  lemma DispatchedCommutes(b: Build, s: State, ins: Word)
    requires ModeOf(s) == USR
    ensures ModeOf(Dispatched(b, s, ins)) == USR
    ensures Dispatched(b, AsSys(s), ins) == AsSys(Dispatched(b, s, ins))
  {
    ConditionsAgree(s, Cond(ins));
    hide Condition, Processed, WordByte, Miscellaneous, Multiple, Branched, AsSys, Cond, TypeOp, Bit4, Bit7, Swi;
    if Condition(Cpsr(s), Cond(ins)) {
      match TypeOp(ins)
      case 0 => ProcessedCommutes(b, s, ins); MiscellaneousCommutes(b, s, ins);
      case 1 => ProcessedCommutes(b, s, ins);
      case 2 => WordByteCommutes(b, s, ins);
      case 3 => WordByteCommutes(b, s, ins);
      case 4 => MultipleCommutes(b, s, ins);
      case 5 => BranchedCommutes(b, s, ins);
      case _ => SwiCommutes(s, ins);
    }
  }

  lemma SwiCommutes(s: State, ins: Word)
    requires ModeOf(s) == USR
    ensures ModeOf(Swi(s, ins)) == USR
    ensures Swi(AsSys(s), ins) == AsSys(Swi(s, ins))
  {
    PeeksAgree(s, 0, W4);
    hide AsSys, Peek;
  }

  lemma StepCommutes(b: Build, s: State)
    requires ModeOf(s) == USR
    ensures ModeOf(Step(b, s)) == USR
    ensures Step(b, AsSys(s)) == AsSys(Step(b, s))
  {
    ReadsAgree(s, PC);
    hide ReadR, Peek, WriteR, Dispatched, AsSys, Trunc;
    var a := FetchAddress(s);
    assert FetchAddress(AsSys(s)) == a;
    hide FetchAddress;
    PeeksAgree(s, a, W4);
    WritesCommute(b, s, PC, Trunc(a as int + 4));
    if Peek(s, a, W4).Value? {
      DispatchedCommutes(b, AfterFetch(b, s, a), Peek(s, a, W4).value);
    }
  }

  /** Runs from a USR state and from the same state with SYS mode bits stay equal but
      for those bits, step for step, as written and repaired. */
  lemma {:induction false} UsrAndSysInLockstep(b: Build, s: State, n: nat)
    requires ModeOf(s) == USR
    ensures ModeOf(Steps(b, s, n)) == USR
    ensures Steps(b, AsSys(s), n) == AsSys(Steps(b, s, n))
    decreases n
  {
    hide Step, AsSys;
    if n > 0 {
      StepCommutes(b, s);
      UsrAndSysInLockstep(b, Step(b, s), n - 1);
    }
  }
}
