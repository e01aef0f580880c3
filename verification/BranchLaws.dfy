/** Where branches land, and the return from a call. */
module BranchLaws {
  import opened Words
  import opened Builds
  import opened Registers
  import opened RegisterLaws
  import opened Core
  import opened Fields
  import opened DataProcessing
  import opened OperandLaws
  import opened Branch

  /** The offset field of a branch at an address to the address d + 8 further on. */
  function EncodedOffset(d: int): Word {
    d / 4 % 0x100_0000
  }

  /** The offsets a branch can encode. */
  predicate Encodable(d: int) {
    d % 4 == 0 && -0x200_0000 <= d < 0x200_0000
  }

  /** The constant of line 32, nine bits of it, over an offset whose top bit is set. */
  lemma {:induction false} OrAbove(low: nat, k: nat)
    requires low < Pow2(k)
    ensures Or(low + Pow2(k), 0x111 * Pow2(k)) == low + 0x111 * Pow2(k)
    decreases k
  {
    if k == 0 {
      assert Or(1, 0x111) == 0x111;
    } else {
      var p := Pow2(k - 1);
      OrAbove(low / 2, k - 1);
      assert Pow2(k) == 2 * p;
      hide Pow2, Or;
      HalfOf(low, p);
      OrHalves(low + 2 * p, 0x111 * p);
    }
  }

  lemma HalfOf(low: nat, m: nat)
    ensures (low + 2 * m) / 2 == low / 2 + m && (low + 2 * m) % 2 == low % 2
  {
  }

  lemma OrHalves(a: nat, b: nat)
    ensures Or(a, 2 * b) == a % 2 + 2 * Or(a / 2, b)
  {
    assert (2 * b) % 2 == 0 && (2 * b) / 2 == b;
  }

  /** The written extension of a negative offset. */
  lemma WrittenExtension(offset: Word)
    requires 0x80_0000 <= offset < 0x100_0000
    ensures OrWord(Trunc(0xb11_1111 * 0x80_0000), offset) == 0x8800_0000 + offset
  {
    OrExtension(offset - 0x80_0000);
    ExtensionConstant();
    hide Or;
  }

  lemma ExtensionConstant()
    ensures Trunc(0xb11_1111 * 0x80_0000) == 0x8880_0000
  {
  }

  lemma OrExtension(low: nat)
    requires low < 0x80_0000
    ensures Or(0x8880_0000, low + 0x80_0000) == low + 0x8880_0000
  {
    Pow2Of23();
    OrAbove(low, 23);
    hide Or, Pow2;
    OrCommutes(low + 0x80_0000, 0x8880_0000);
  }

  lemma Pow2Of23()
    ensures Pow2(23) == 0x80_0000
  {
    Pow2Of32();
    assert Pow2(7) == 0x80;
    Pow2Add(16, 7);
  }

  /** Bit 23 is the sign of an encoded offset. */
  lemma OffsetSign(d: int)
    requires Encodable(d)
    ensures EncodedOffset(d) == if d >= 0 then d / 4 else d / 4 + 0x100_0000
    ensures EncodedOffset(d) / 0x80_0000 == if d >= 0 then 0 else 1
  {
  }

  lemma OffsetBit(ins: Word)
    ensures Bit23(ins) == Offset24(ins) / 0x80_0000
  {
  }

  /** What a branch adds to the PC: the offset, or as written for a negative one
      0x24000000 more. */
  lemma ExtendedOffset(b: Build, ins: Word, d: int)
    requires Encodable(d) && Offset24(ins) == EncodedOffset(d)
    ensures Trunc(4 * SignedExtend30(b, ins)) ==
      Trunc(if b.extendSign || d >= 0 then d else d + 0x2400_0000)
  {
    hide OrWord, Bit23, Offset24, EncodedOffset, Trunc;
    OffsetSign(d);
    OffsetBit(ins);
    var offset: int := Offset24(ins);
    if d < 0 {
      WrittenExtension(offset);
      WrittenWrap(offset, d);
      TruncSum4(offset - 0x100_0000);
    }
  }

  lemma WrittenWrap(offset: int, d: int)
    requires d % 4 == 0 && offset == d / 4 + 0x100_0000
    ensures Trunc(4 * (0x8800_0000 + offset)) == Trunc(d + 0x2400_0000)
    ensures 4 * (offset - 0x100_0000) == d
  {
    assert 4 * (0x8800_0000 + offset) == 2 * 0x1_0000_0000 + (d + 0x2400_0000);
  }

  lemma TruncSum4(x: int)
    ensures Trunc(4 * Trunc(x)) == Trunc(4 * x)
  {
    TruncShift(4 * Trunc(x), 4 * (x / 0x1_0000_0000));
  }

  lemma PcAhead(src: Word)
    requires src % 4 == 0
    ensures PcSeen(Trunc(src + 4)) == Trunc(src + 8)
  {
    hide Trunc;
    TruncSum(src + 4, 4);
    AlignedSum(src);
    Aligned(Trunc(src + 8));
  }

  lemma AlignedSum(src: Word)
    requires src % 4 == 0
    ensures Trunc(src + 8) % 4 == 0
  {
  }

  lemma Aligned(v: Word)
    requires v % 4 == 0
    ensures v / 2 % 2 == 0
  {
  }

  /** A branch at src with an offset of d lands at src + 8 + d for every encodable d
      when the extension is repaired, and as written exactly when d is not negative:
      backwards it lands 0x24000000 too high. The PC was moved on by the fetch. */
  lemma BranchLands(b: Build, s: State, ins: Word, src: Word, d: int)
    requires src % 4 == 0 && s.regs[PC] == Trunc(src + 4)
    requires Encodable(d) && Offset24(ins) == EncodedOffset(d) && Cond(ins) != 15
    ensures Branched(b, s, ins).regs[PC] == Trunc(src + 8 + d) <==> b.extendSign || d >= 0
    ensures !b.extendSign && d < 0 ==> Branched(b, s, ins).regs[PC] == Trunc(src + 8 + d + 0x2400_0000)
  {
    hide Branched, SignedExtend30, Offset24, EncodedOffset, Cond, Encodable;
    BranchedPc(b, s, ins, src);
    ExtendedOffset(b, ins, d);
    TruncSum(src + 8, 4 * SignedExtend30(b, ins));
    TruncSum(src + 8, d);
    TruncSum(src + 8, d + 0x2400_0000);
    TruncApart(src + 8 + d);
    hide Trunc;
  }

  lemma BranchedPc(b: Build, s: State, ins: Word, src: Word)
    requires src % 4 == 0 && s.regs[PC] == Trunc(src + 4) && Cond(ins) != 15
    ensures Branched(b, s, ins).regs[PC] == Trunc(src + 8 + 4 * SignedExtend30(b, ins))
  {
    hide SignedExtend30, PcSeen, Trunc, Bit24;
    PcAhead(src);
    TruncSum(src + 8, 4 * SignedExtend30(b, ins));
    var s1 := if Bit24(ins) == 1 then WriteR(b, s, 14, Trunc(ReadR(s, PC) - 4)) else s;
    assert s1.regs[PC] == s.regs[PC];
  }

  lemma TruncApart(x: int)
    ensures Trunc(x) != Trunc(x + 0x2400_0000)
  {
  }

  /** The instruction MOV pc, lr. */
  const MOV_PC_LR: Word := 0xE1A0_F00E

  /** BL leaves the address after it in LR, from which MOV pc, lr, executed in any
      later state that still has it there, returns. */
  lemma CallAndReturn(b: Build, s: State, ins: Word, src: Word, later: State)
    requires src % 4 == 0 && s.regs[PC] == Trunc(src + 4) && Known(ModeOf(s))
    requires Bit24(ins) == 1 && Cond(ins) != 15
    requires ReadR(later, 14) == ReadR(Branched(b, s, ins), 14)
    ensures Processed(b, later, MOV_PC_LR).regs[PC] == Trunc(src + 4)
  {
    LinkIs(b, s, ins, src);
    MovPcLr(b, later);
  }

  lemma LinkIs(b: Build, s: State, ins: Word, src: Word)
    requires src % 4 == 0 && s.regs[PC] == Trunc(src + 4) && Known(ModeOf(s))
    requires Bit24(ins) == 1 && Cond(ins) != 15
    ensures ReadR(Branched(b, s, ins), 14) == Trunc(src + 4)
  {
    PcAhead(src);
    TruncSum(src + 8, -4);
    hide SignedExtend30, PcSeen;
    var s1 := WriteR(b, s, 14, Trunc(ReadR(s, PC) - 4));
    ReadWritten(b.loneBank, s.regs, 14, Trunc(ReadR(s, PC) - 4));
    WriteKeepsCpsr(b.loneBank, s.regs, 14, Trunc(ReadR(s, PC) - 4));
    PcIsNoLink(b, s1, Trunc(ReadR(s1, PC) + 4 * SignedExtend30(b, ins)));
    hide Write, Read;
  }

  lemma PcIsNoLink(b: Build, s: State, pc: Word)
    ensures ReadR(WriteR(b, s, PC, pc), 14) == ReadR(s, 14)
  {
  }

  lemma MovPcLr(b: Build, s: State)
    ensures Processed(b, s, MOV_PC_LR).regs[PC] == ReadR(s, 14)
  {
    var ins := MOV_PC_LR;
    assert Cond(ins) == 14 && Opcode(ins) == 13 && Rd(ins) == 15;
    MovOperand(b, s);
    hide SecondOperand, ReadR, Pack, NewFlags, Cond, Opcode, Rd;
  }

  lemma MovOperand(b: Build, s: State)
    ensures SecondOperand(b, s, MOV_PC_LR).0 == ReadR(s, 14)
  {
    hide SecondOperand, ReadR, Rm, Bit25, Bit4, ShiftKind, ShiftImm;
    MovOperandFields();
    OperandLsl0(b, s, MOV_PC_LR);
  }

  lemma MovOperandFields()
    ensures Bit25(MOV_PC_LR) == 0 && Bit4(MOV_PC_LR) == 0 && Rm(MOV_PC_LR) == 14
    ensures ShiftKind(MOV_PC_LR) == 0 && ShiftImm(MOV_PC_LR) == 0
  {
  }
}
