/** What no program can change: runs in a mode stay in that mode and touch only the
    registers it sees. */
module Isolation {
  import opened Words
  import opened Builds
  import opened Registers
  import opened RegisterLaws
  import opened Memory
  import opened Core
  import opened Fields
  import opened Decode
  import opened DataProcessing
  import opened Branch
  import opened LoadStore
  import opened BlockTransfer
  import opened Instruction

  /** s' keeps the CPSR of s but for the four flags, every cell out of reach of the
      mode of s, and the extent and endianness of memory. */
  ghost predicate Confined(b: Build, s: State, s': State) {
    && Cpsr(s') % 0x1000_0000 == Cpsr(s) % 0x1000_0000
    && (forall cell: nat :: cell < 37 && cell != CPSR && !InReach(b.loneBank, ModeOf(s), cell) ==>
          s'.regs[cell] == s.regs[cell])
    && |s'.mem.bytes| == |s.mem.bytes| && s'.mem.big == s.mem.big
  }

  lemma SameMode(s: State, s': State)
    requires Cpsr(s') % 0x1000_0000 == Cpsr(s) % 0x1000_0000
    ensures ModeOf(s') == ModeOf(s)
  {
    LowFive(Cpsr(s));
    LowFive(Cpsr(s'));
  }

  lemma Transitive(b: Build, s: State, t: State, u: State)
    requires Confined(b, s, t) && Confined(b, t, u)
    ensures Confined(b, s, u)
  {
    SameMode(s, t);
    hide InReach;
  }

  lemma WriteConfined(b: Build, s: State, reg: nat, value: Word)
    ensures Confined(b, s, WriteR(b, s, reg, value))
  {
    WriteKeepsCpsr(b.loneBank, s.regs, reg, value);
    forall cell: nat | cell < 37 && cell != CPSR && !InReach(b.loneBank, ModeOf(s), cell)
      ensures WriteR(b, s, reg, value).regs[cell] == s.regs[cell]
    {
      WriteInReach(b.loneBank, s.regs, reg, value, cell);
    }
    hide Write, InReach;
  }

  lemma PokeConfined(b: Build, s: State, a: Word, w: Width, v: Word)
    ensures Confined(b, s, Poke(s, a, w, v))
  {
    hide InReach, Refused, Store;
  }

  lemma FlagsConfined(b: Build, s: State, f: Flags)
    ensures Confined(b, s, WithCpsr(s, Pack(Cpsr(s), f)))
  {
    PackSplits(Cpsr(s), f);
    hide Pack, InReach;
  }

  lemma ProcessedConfined(b: Build, s: State, ins: Word)
    ensures Confined(b, s, Processed(b, s, ins))
  {
    hide SecondOperand, ReadR, Alu, WriteR, Pack, NewFlags, InReach, Condition, Opcode, Rd, Rn, CFlag;
    var (v, carry) := SecondOperand(b, s, ins);
    var a := ReadR(s, Rn(ins));
    var alu := Alu(Opcode(ins), a, v, CFlag(Cpsr(s)));
    var s1 := if IsTest(Opcode(ins)) then s else WriteR(b, s, Rd(ins), alu);
    WriteConfined(b, s, Rd(ins), alu);
    var f := NewFlags(b, s1, ins, alu, carry, a, v);
    FlagsConfined(b, s1, f);
    Transitive(b, s, s1, WithCpsr(s1, Pack(Cpsr(s1), f)));
  }

  lemma BranchedConfined(b: Build, s: State, ins: Word)
    ensures Confined(b, s, Branched(b, s, ins))
  {
    hide ReadR, WriteR, SignedExtend30, InReach, Cond, Bit24, Trunc;
    var link := Trunc(ReadR(s, PC) - 4);
    var s1 := if Bit24(ins) == 1 then WriteR(b, s, 14, link) else s;
    WriteConfined(b, s, 14, link);
    var pc := Trunc(ReadR(s1, PC) + 4 * SignedExtend30(b, ins));
    WriteConfined(b, s1, PC, pc);
    Transitive(b, s, s1, WriteR(b, s1, PC, pc));
  }

  lemma MovedConfined(b: Build, s: State, ins: Word, offset: nat)
    ensures Confined(b, s, Moved(b, s, ins, offset))
  {
    hide ReadR, WriteR, HandlingOffset, InReach, BaseMoves;
    WriteConfined(b, s, Rn(ins), HandlingOffset(ReadR(s, Rn(ins)), offset, Bit23(ins)));
  }

  lemma LoadToConfined(b: Build, s: State, a: Word, w: Width, rd: nat)
    ensures Confined(b, s, LoadTo(b, s, a, w, rd))
  {
    hide Peek, WriteR, InReach;
    match Peek(s, a, w)
    case Value(v) => WriteConfined(b, s, rd, v);
    case Denied =>
    case Beyond =>
  }

  lemma LoadSignedConfined(b: Build, s: State, a: Word, w: Width, rd: nat)
    requires w != W4
    ensures Confined(b, s, LoadSigned(b, s, a, w, rd))
  {
    LoadSignedShape(b, s, a, w, rd);
    hide LoadSigned, WriteR, InReach;
    if v :| LoadSigned(b, s, a, w, rd) == WriteR(b, s, rd, v) {
      WriteConfined(b, s, rd, v);
    }
  }

  lemma LoadSignedShape(b: Build, s: State, a: Word, w: Width, rd: nat)
    requires w != W4
    ensures (exists v: Word :: LoadSigned(b, s, a, w, rd) == WriteR(b, s, rd, v))
            || LoadSigned(b, s, a, w, rd) == s
            || LoadSigned(b, s, a, w, rd) == s.(stop := Overrun)
  {
    hide Load, WriteR, SignExtended;
  }

  lemma WordByteConfined(b: Build, s: State, ins: Word)
    ensures Confined(b, s, WordByte(b, s, ins))
  {
    hide Moved, WordAddress, WordOffset, LoadTo, Poke, ReadR, ReadUsrR, InReach;
    var s1 := Moved(b, s, ins, WordOffset(b, s, ins));
    MovedConfined(b, s, ins, WordOffset(b, s, ins));
    var a, w := WordAddress(b, s, ins), if Bit22(ins) == 0 then W4 else B1;
    LoadToConfined(b, s1, a, w, Rd(ins));
    var value := if Bit24(ins) == 0 && Bit21(ins) == 1 then ReadUsrR(s1, Rd(ins)) else ReadR(s1, Rd(ins));
    PokeConfined(b, s1, a, w, if w == B1 then value % 0x100 else value);
    Transitive(b, s, s1, WordByte(b, s, ins));
  }

  lemma HalfByteConfined(b: Build, s: State, ins: Word, a: Word)
    ensures Confined(b, s, HalfByte(b, s, ins, a))
  {
    hide LoadTo, LoadSigned, Poke, ReadR, InReach, Condition;
    PokeConfined(b, s, a, H2, ReadR(s, Rd(ins)) % 0x1_0000);
    LoadToConfined(b, s, a, H2, Rd(ins));
    LoadSignedConfined(b, s, a, B1, Rd(ins));
    LoadSignedConfined(b, s, a, H2, Rd(ins));
  }

  lemma MiscellaneousConfined(b: Build, s: State, ins: Word)
    ensures Confined(b, s, Miscellaneous(b, s, ins))
  {
    hide HalfByte, Moved, HalfOffset, HandlingOffset, ReadR, InReach;
    var s1 := Moved(b, s, ins, HalfOffset(s, ins));
    MovedConfined(b, s, ins, HalfOffset(s, ins));
    var a := if Bit24(ins) == 0 then ReadR(s, Rn(ins))
             else HandlingOffset(ReadR(s, Rn(ins)), HalfOffset(s, ins), Bit23(ins));
    HalfByteConfined(b, s1, ins, a);
    Transitive(b, s, s1, HalfByte(b, s1, ins, a));
  }

  lemma {:induction false} LoadsConfined(b: Build, c: Cursor, list: nat, n: nat)
    ensures Confined(b, c.s, LoadUpTo(b, c, list, n).s)
  {
    hide Peek, WriteR, InReach, Bit;
    if n > 0 {
      LoadsConfined(b, c, list, n - 1);
      var d := LoadUpTo(b, c, list, n - 1);
      LoadOneConfined(b, d, list, n - 1);
      Transitive(b, c.s, d.s, LoadOne(b, d, list, n - 1).s);
    }
  }

  lemma LoadOneConfined(b: Build, c: Cursor, list: nat, i: nat)
    ensures Confined(b, c.s, LoadOne(b, c, list, i).s)
  {
    hide Peek, WriteR, InReach, Bit;
    WriteConfined(b, c.s, i, c.value);
    match Peek(c.s, c.address, W4)
    case Value(v) => WriteConfined(b, c.s, i, v);
    case Denied =>
    case Beyond =>
  }

  lemma {:induction false} StoresConfined(b: Build, c: Cursor, ins: Word, n: nat)
    ensures Confined(b, c.s, StoreUpTo(c, ins, n).s)
  {
    hide Poke, StoredValue, InReach, Bit;
    if n > 0 {
      StoresConfined(b, c, ins, n - 1);
      var d := StoreUpTo(c, ins, n - 1);
      PokeConfined(b, d.s, d.address, W4, StoredValue(d.s, ins, n - 1));
      Transitive(b, c.s, d.s, StoreOne(d, ins, n - 1).s);
    }
  }

  lemma LoadPcConfined(b: Build, c: Cursor, ins: Word)
    ensures Confined(b, c.s, LoadPc(b, c, ins))
  {
    hide Peek, WriteR, InReach, Bit, HasSpsr;
    WriteConfined(b, c.s, PC, if Bit22(ins) == 1 then c.value else 0xFFFF_FFFE);
    match Peek(c.s, c.address, W4)
    case Value(v) => WriteConfined(b, c.s, PC, if Bit22(ins) == 1 then v else 0);
    case Denied =>
    case Beyond =>
  }

  lemma MultipleConfined(b: Build, s: State, ins: Word)
    ensures Confined(b, s, Multiple(b, s, ins))
  {
    hide Condition, TestedCpsr, StartAddress, NewBase, WriteR, InReach, LoadUpTo, StoreUpTo, LoadPc;
    var s1 := Rebased(b, s, ins);
    WriteConfined(b, s, Rn(ins), NewBase(b, s, ins));
    var c := Cursor(s1, StartAddress(b, s, ins), b.host.junk);
    LoadsConfined(b, c, RegisterList(ins), 15);
    var d := LoadUpTo(b, c, RegisterList(ins), 15);
    LoadPcConfined(b, d, ins);
    Transitive(b, s1, d.s, LoadPc(b, d, ins));
    StoresConfined(b, c, ins, 16);
    Transitive(b, s, s1, d.s);
    Transitive(b, s, s1, LoadPc(b, d, ins));
    Transitive(b, s, s1, StoreUpTo(c, ins, 16).s);
  }

  lemma DispatchedConfined(b: Build, s: State, ins: Word)
    ensures Confined(b, s, Dispatched(b, s, ins))
  {
    hide Condition, Processed, WordByte, Miscellaneous, Multiple, Branched, InReach;
    ProcessedConfined(b, s, ins);
    WordByteConfined(b, s, ins);
    MiscellaneousConfined(b, s, ins);
    MultipleConfined(b, s, ins);
    BranchedConfined(b, s, ins);
  }

  lemma StepConfined(b: Build, s: State)
    ensures Confined(b, s, Step(b, s))
  {
    hide Peek, FetchAddress, WriteR, Dispatched, InReach, Trunc;
    var s1 := AfterFetch(b, s, FetchAddress(s));
    WriteConfined(b, s, PC, Trunc(FetchAddress(s) + 4));
    match Peek(s, FetchAddress(s), W4)
    case Value(ins) =>
      DispatchedConfined(b, s1, ins);
      Transitive(b, s, s1, Dispatched(b, s1, ins));
    case Denied =>
    case Beyond =>
  }

  /** Any number of steps of any program, from any mode, as written or repaired: the
      mode and all CPSR bits below the flags stay, and so does every register cell
      that is not one the mode's sixteen registers use (or, as written from USR and
      SYS, cells 17 and 18). In particular no SPSR ever changes. */
  lemma {:induction false} RunsAreConfined(b: Build, s: State, n: nat)
    ensures Confined(b, s, Steps(b, s, n))
    decreases n
  {
    hide Step, InReach;
    if n > 0 {
      StepConfined(b, s);
      RunsAreConfined(b, Step(b, s), n - 1);
      Transitive(b, s, Step(b, s), Steps(b, s, n));
    }
  }

  /** So no instruction changes the mode or any of the five SPSRs. */
  lemma ModeAndSpsrsStay(b: Build, s: State, n: nat, cell: nat)
    requires cell in {19, 22, 25, 28, 36}
    ensures ModeOf(Steps(b, s, n)) == ModeOf(s)
    ensures Steps(b, s, n).regs[cell] == s.regs[cell]
  {
    hide Steps;
    RunsAreConfined(b, s, n);
    SameMode(s, Steps(b, s, n));
    assert !InReach(b.loneBank, ModeOf(s), cell);
  }

  /** From USR or SYS that leaves cells 19 to 36 alone as written, and cells 17 and 18
      too when line 146 is repaired. */
  lemma UserRunsAreConfined(b: Build, s: State, n: nat, cell: nat)
    requires ModeOf(s) == USR || ModeOf(s) == SYS
    requires 19 <= cell < 37 || (b.loneBank && 17 <= cell < 19)
    ensures Steps(b, s, n).regs[cell] == s.regs[cell]
    ensures Cpsr(Steps(b, s, n)) % 0x1000_0000 == Cpsr(s) % 0x1000_0000
  {
    hide Steps;
    RunsAreConfined(b, s, n);
    assert !InReach(b.loneBank, ModeOf(s), cell);
  }
}
