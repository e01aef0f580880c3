/** Instruction words put together from their fields, as sections A3 and A5 of ARM
    DDI 0100 lay them out, and what the model takes apart again. */
module Encodings {
  import opened Words
  import opened Fields

  type FourBits = r: nat | r < 16

  /** Bits 31..28, 27..25, 24..20, 19..16, 15..12 and 11..0. */
  function Coded(cond: FourBits, kind: nat, flags: nat, rn: FourBits, rd: FourBits, low: nat): Word
    requires kind < 8 && flags < 32 && low < 0x1000
  {
    ((cond * 8 + kind) * 32 + flags) * 0x10_0000 + rn * 0x1_0000 + rd * 0x1000 + low
  }

  /** The P, U, B (or S), W and L bits. */
  function FiveBits(p: Flag, u: Flag, b: Flag, w: Flag, l: Flag): (f: nat)
    ensures f < 32
  {
    p * 16 + u * 8 + b * 4 + w * 2 + l
  }

  /** The fields of bits 31..20. */
  lemma TopFields(ins: Word, top: nat)
    requires ins / 0x10_0000 == top
    ensures Cond(ins) == top / 0x100 && TypeOp(ins) == top / 0x20 % 8
    ensures Bit25(ins) == top / 0x20 % 2 && Bit24(ins) == top / 0x10 % 2 && Bit23(ins) == top / 8 % 2
    ensures Bit22(ins) == top / 4 % 2 && Bit21(ins) == top / 2 % 2 && Bit20(ins) == top % 2
    ensures Opcode(ins) == top / 2 % 16
  {
  }

  lemma CodedTop(cond: FourBits, kind: nat, flags: nat, rn: FourBits, rd: FourBits, low: nat)
    requires kind < 8 && flags < 32 && low < 0x1000
    ensures var ins := Coded(cond, kind, flags, rn, rd, low);
      && Cond(ins) == cond && TypeOp(ins) == kind && Bit25(ins) == kind % 2 && Opcode(ins) == flags / 2
      && Bit24(ins) == flags / 16 && Bit23(ins) == flags / 8 % 2 && Bit22(ins) == flags / 4 % 2
      && Bit21(ins) == flags / 2 % 2 && Bit20(ins) == flags % 2
  {
    hide Cond, TypeOp, Bit25, Bit24, Bit23, Bit22, Bit21, Bit20, Opcode;
    var ins, top := Coded(cond, kind, flags, rn, rd, low), (cond * 8 + kind) * 32 + flags;
    DivModUnique(ins, 0x10_0000, top, rn * 0x1_0000 + rd * 0x1000 + low);
    TopFields(ins, top);
    DivModUnique(top, 0x100, cond, kind * 32 + flags);
    DivModUnique(top, 0x20, cond * 8 + kind, flags);
    DivModUnique(cond * 8 + kind, 8, cond, kind);
    OddPart(cond * 4, kind);
    BelowFive(cond * 8 + kind, flags);
  }

  lemma OddPart(q: int, r: int)
    ensures (2 * q + r) % 2 == r % 2
  {
  }

  lemma BelowFive(q: nat, f: nat)
    requires f < 32
    ensures var top := q * 32 + f;
      && top / 16 % 2 == f / 16 && top / 8 % 2 == f / 8 % 2 && top / 4 % 2 == f / 4 % 2
      && top / 2 % 2 == f / 2 % 2 && top % 2 == f % 2 && top / 2 % 16 == f / 2
  {
    var top := q * 32 + f;
    DivModUnique(top, 16, q * 2 + f / 16, f % 16);
    DivModUnique(top, 8, q * 4 + f / 8, f % 8);
    DivModUnique(top, 4, q * 8 + f / 4, f % 4);
    DivModUnique(top, 2, q * 16 + f / 2, f % 2);
    OddPart(q, f / 16);
    OddPart(q * 2, f / 8);
    OddPart(q * 4, f / 4);
    OddPart(q * 8, f / 2);
    DivModUnique(q * 16 + f / 2, 16, q, f / 2);
  }

  lemma CodedLow(cond: FourBits, kind: nat, flags: nat, rn: FourBits, rd: FourBits, low: nat)
    requires kind < 8 && flags < 32 && low < 0x1000
    ensures var ins := Coded(cond, kind, flags, rn, rd, low);
      Rn(ins) == rn && Rd(ins) == rd && Imm12(ins) == low && RegisterList(ins) == rd * 0x1000 + low
  {
    var ins, upper := Coded(cond, kind, flags, rn, rd, low), ((cond * 8 + kind) * 32 + flags) * 16 + rn;
    DivModUnique(ins, 0x1_0000, upper, rd * 0x1000 + low);
    DivModUnique(ins, 0x1000, upper * 0x10 + rd, low);
    DivModUnique(upper, 0x10, (cond * 8 + kind) * 32 + flags, rn);
    DivModUnique(upper * 0x10 + rd, 0x10, upper, rd);
  }

  /** The fields inside bits 11..0. */
  lemma FieldsOfLow(ins: Word)
    ensures var low := Imm12(ins);
      && Imm8(ins) == low % 0x100 && Rm(ins) == low % 16 && Rs(ins) == low / 0x100
      && ShiftKind(ins) == low / 0x20 % 4 && ShiftImm(ins) == low / 0x80
      && Bit4(ins) == low / 0x10 % 2 && Bit5(ins) == low / 0x20 % 2
      && Bit6(ins) == low / 0x40 % 2 && Bit7(ins) == low / 0x80 % 2
  {
    var q, low := ins / 0x1000, ins % 0x1000;
    assert ins == q * 0x1000 + low;
    LowPart(q, low, 0x10, 0x100);
    LowPart(q, low, 0x20, 0x80);
    LowPart(q, low, 0x40, 0x40);
    LowPart(q, low, 0x80, 0x20);
    LowPart(q, low, 0x100, 0x10);
    OddPart(q * 0x80, low / 0x10);
    OddPart(q * 0x40, low / 0x20);
    OddPart(q * 0x20, low / 0x40);
    OddPart(q * 0x10, low / 0x80);
    DivModUnique(q * 0x80 + low / 0x20, 4, q * 0x20 + low / 0x20 / 4, low / 0x20 % 4);
    DivModUnique(q * 0x20 + low / 0x80, 32, q, low / 0x80);
    DivModUnique(q * 0x10 + low / 0x100, 16, q, low / 0x100);
  }

  lemma LowPart(q: int, low: int, d: int, k: int)
    requires d > 0 && d * k == 0x1000
    ensures (q * 0x1000 + low) / d == q * k + low / d && (q * 0x1000 + low) % d == low % d
  {
    assert q * 0x1000 == q * k * d;
    DivModUnique(q * 0x1000 + low, d, q * k + low / d, low % d);
  }

  // ---------- the formats ----------

  /** LDR, STR, LDRB and STRB, I set for register offsets. */
  function CodedSingle(cond: FourBits, i: Flag, p: Flag, u: Flag, b: Flag, w: Flag, l: Flag,
                  rn: FourBits, rd: FourBits, low: nat): Word
    requires low < 0x1000
  {
    Coded(cond, 2 + i, FiveBits(p, u, b, w, l), rn, rd, low)
  }

  /** The halves and signed bytes: bits 11..8, the S and H bits between two set ones,
      and bits 3..0. */
  function CodedHalf(cond: FourBits, p: Flag, u: Flag, i: Flag, w: Flag, l: Flag,
                rn: FourBits, rd: FourBits, high: FourBits, s: Flag, h: Flag, low: FourBits): Word
  {
    Coded(cond, 0, FiveBits(p, u, i, w, l), rn, rd, high * 0x100 + 0x90 + s * 0x40 + h * 0x20 + low)
  }

  /** LDM and STM. */
  function CodedBlock(cond: FourBits, p: Flag, u: Flag, s: Flag, w: Flag, l: Flag, rn: FourBits, list: nat): Word
    requires list < 0x1_0000
  {
    Coded(cond, 4, FiveBits(p, u, s, w, l), rn, list / 0x1000, list % 0x1000)
  }

  /** Data processing with a rotated immediate, a shifted register, and a register
      shifted by a register. */
  function CodedImmediate(cond: FourBits, op: FourBits, s: Flag, rn: FourBits, rd: FourBits,
                          rotate: FourBits, imm: Byte): Word
  {
    Coded(cond, 1, op * 2 + s, rn, rd, rotate * 0x100 + imm)
  }

  function CodedByField(cond: FourBits, op: FourBits, s: Flag, rn: FourBits, rd: FourBits,
                   imm: nat, kind: nat, rm: FourBits): Word
    requires imm < 32 && kind < 4
  {
    Coded(cond, 0, op * 2 + s, rn, rd, imm * 0x80 + kind * 0x20 + rm)
  }

  function CodedByRegister(cond: FourBits, op: FourBits, s: Flag, rn: FourBits, rd: FourBits,
                      rs: FourBits, kind: nat, rm: FourBits): Word
    requires kind < 4
  {
    Coded(cond, 0, op * 2 + s, rn, rd, rs * 0x100 + 0x10 + kind * 0x20 + rm)
  }

  /** B, BL and SWI: a 24-bit number below bit 24. */
  function CodedLong(cond: FourBits, kind: nat, top: Flag, number: nat): Word
    requires kind < 8 && number < 0x100_0000
  {
    ((cond * 8 + kind) * 2 + top) * 0x100_0000 + number
  }

  lemma FiveBitsApart(p: Flag, u: Flag, b: Flag, w: Flag, l: Flag)
    ensures var f := FiveBits(p, u, b, w, l);
      f / 16 == p && f / 8 % 2 == u && f / 4 % 2 == b && f / 2 % 2 == w && f % 2 == l
  {
  }

  lemma SingleFields(cond: FourBits, i: Flag, p: Flag, u: Flag, b: Flag, w: Flag, l: Flag,
                     rn: FourBits, rd: FourBits, low: nat)
    requires low < 0x1000
    ensures var ins := CodedSingle(cond, i, p, u, b, w, l, rn, rd, low);
      && Cond(ins) == cond && TypeOp(ins) == 2 + i && Bit25(ins) == i && Bit24(ins) == p && Bit23(ins) == u
      && Bit22(ins) == b && Bit21(ins) == w && Bit20(ins) == l && Rn(ins) == rn && Rd(ins) == rd && Imm12(ins) == low
      && Rm(ins) == low % 16 && Rs(ins) == low / 0x100 && Bit4(ins) == low / 0x10 % 2
      && ShiftKind(ins) == low / 0x20 % 4 && ShiftImm(ins) == low / 0x80
  {
    hide Coded, FiveBits, Cond, TypeOp, Bit25, Bit24, Bit23, Bit22, Bit21, Bit20, Rn, Rd, Imm12, RegisterList;
    hide Opcode, Rm, Rs, Bit4, ShiftKind, ShiftImm, Imm8, Bit5, Bit6, Bit7;
    FiveBitsApart(p, u, b, w, l);
    CodedTop(cond, 2 + i, FiveBits(p, u, b, w, l), rn, rd, low);
    CodedLow(cond, 2 + i, FiveBits(p, u, b, w, l), rn, rd, low);
    FieldsOfLow(CodedSingle(cond, i, p, u, b, w, l, rn, rd, low));
  }

  lemma HalfLow(high: FourBits, s: Flag, h: Flag, low: FourBits)
    ensures var x := high * 0x100 + 0x90 + s * 0x40 + h * 0x20 + low;
      && x < 0x1000 && x / 0x100 == high && x % 16 == low && x / 0x10 % 2 == 1 && x / 0x80 % 2 == 1
      && x / 0x40 % 2 == s && x / 0x20 % 2 == h
  {
    var x := high * 0x100 + 0x90 + s * 0x40 + h * 0x20 + low;
    DivModUnique(x, 0x100, high, 0x90 + s * 0x40 + h * 0x20 + low);
    DivModUnique(x, 0x10, high * 16 + 9 + s * 4 + h * 2, low);
    DivModUnique(x, 0x20, high * 8 + 4 + s * 2 + h, 0x10 + low);
    DivModUnique(x, 0x40, high * 4 + 2 + s, 0x10 + h * 0x20 + low);
    DivModUnique(x, 0x80, high * 2 + 1, 0x10 + s * 0x40 + h * 0x20 + low);
    OddPart(high * 8 + 4 + s * 2 + h, 1);
    OddPart(high * 4 + 2 + s, h);
    OddPart(high * 2 + 1, s);
    OddPart(high, 1);
  }

  lemma HalfFields(cond: FourBits, p: Flag, u: Flag, i: Flag, w: Flag, l: Flag,
                   rn: FourBits, rd: FourBits, high: FourBits, s: Flag, h: Flag, low: FourBits)
    ensures var ins := CodedHalf(cond, p, u, i, w, l, rn, rd, high, s, h, low);
      && Cond(ins) == cond && TypeOp(ins) == 0 && Bit24(ins) == p && Bit23(ins) == u
      && Bit22(ins) == i && Bit21(ins) == w && Bit20(ins) == l && Rn(ins) == rn && Rd(ins) == rd
      && Rs(ins) == high && Rm(ins) == low && Bit7(ins) == 1 && Bit6(ins) == s && Bit5(ins) == h && Bit4(ins) == 1
  {
    hide Coded, FiveBits, Cond, TypeOp, Bit25, Bit24, Bit23, Bit22, Bit21, Bit20, Rn, Rd, Imm12, RegisterList;
    hide Opcode, Rm, Rs, Bit4, ShiftKind, ShiftImm, Imm8, Bit5, Bit6, Bit7;
    FiveBitsApart(p, u, i, w, l);
    HalfLow(high, s, h, low);
    var x := high * 0x100 + 0x90 + s * 0x40 + h * 0x20 + low;
    CodedTop(cond, 0, FiveBits(p, u, i, w, l), rn, rd, x);
    CodedLow(cond, 0, FiveBits(p, u, i, w, l), rn, rd, x);
    FieldsOfLow(CodedHalf(cond, p, u, i, w, l, rn, rd, high, s, h, low));
  }

  lemma BlockFields(cond: FourBits, p: Flag, u: Flag, s: Flag, w: Flag, l: Flag, rn: FourBits, list: nat)
    requires list < 0x1_0000
    ensures var ins := CodedBlock(cond, p, u, s, w, l, rn, list);
      && Cond(ins) == cond && TypeOp(ins) == 4 && Bit24(ins) == p && Bit23(ins) == u
      && Bit22(ins) == s && Bit21(ins) == w && Bit20(ins) == l && Rn(ins) == rn && RegisterList(ins) == list
  {
    hide Coded, FiveBits, Cond, TypeOp, Bit25, Bit24, Bit23, Bit22, Bit21, Bit20, Rn, Rd, Imm12, RegisterList, Opcode;
    FiveBitsApart(p, u, s, w, l);
    CodedTop(cond, 4, FiveBits(p, u, s, w, l), rn, list / 0x1000, list % 0x1000);
    CodedLow(cond, 4, FiveBits(p, u, s, w, l), rn, list / 0x1000, list % 0x1000);
  }

  lemma ImmediateFields(cond: FourBits, op: FourBits, s: Flag, rn: FourBits, rd: FourBits, rotate: FourBits, imm: Byte)
    ensures var ins := CodedImmediate(cond, op, s, rn, rd, rotate, imm);
      && Cond(ins) == cond && TypeOp(ins) == 1 && Bit25(ins) == 1 && Opcode(ins) == op && Bit20(ins) == s
      && Rn(ins) == rn && Rd(ins) == rd && Rs(ins) == rotate && Imm8(ins) == imm && Imm12(ins) == rotate * 0x100 + imm
  {
    hide Coded, Cond, TypeOp, Bit25, Bit24, Bit23, Bit22, Bit21, Bit20, Rn, Rd, Imm12, RegisterList;
    hide Opcode, Rm, Rs, Bit4, ShiftKind, ShiftImm, Imm8, Bit5, Bit6, Bit7;
    DivModUnique(op * 2 + s, 2, op, s);
    DivModUnique(rotate * 0x100 + imm, 0x100, rotate, imm);
    CodedTop(cond, 1, op * 2 + s, rn, rd, rotate * 0x100 + imm);
    CodedLow(cond, 1, op * 2 + s, rn, rd, rotate * 0x100 + imm);
    FieldsOfLow(CodedImmediate(cond, op, s, rn, rd, rotate, imm));
  }

  lemma ByFieldLow(imm: nat, kind: nat, rm: FourBits)
    requires imm < 32 && kind < 4
    ensures var x := imm * 0x80 + kind * 0x20 + rm;
      && x < 0x1000 && x % 16 == rm && x / 0x10 % 2 == 0 && x / 0x20 % 4 == kind && x / 0x80 == imm
      && x / 0x100 == imm / 2
  {
    var x := imm * 0x80 + kind * 0x20 + rm;
    DivModUnique(x, 0x10, imm * 8 + kind * 2, rm);
    DivModUnique(x, 0x20, imm * 4 + kind, rm);
    DivModUnique(x, 0x80, imm, kind * 0x20 + rm);
    DivModUnique(imm * 4 + kind, 4, imm, kind);
    OddPart(imm * 4 + kind, 0);
    DivDiv(x, 0x80, 2);
  }

  lemma ByFieldFields(cond: FourBits, op: FourBits, s: Flag, rn: FourBits, rd: FourBits,
                      imm: nat, kind: nat, rm: FourBits)
    requires imm < 32 && kind < 4
    ensures var ins := CodedByField(cond, op, s, rn, rd, imm, kind, rm);
      && Cond(ins) == cond && TypeOp(ins) == 0 && Bit25(ins) == 0 && Opcode(ins) == op && Bit20(ins) == s
      && Rn(ins) == rn && Rd(ins) == rd && Rm(ins) == rm && Bit4(ins) == 0
      && ShiftKind(ins) == kind && ShiftImm(ins) == imm && Rs(ins) == imm / 2
      && Imm12(ins) == imm * 0x80 + kind * 0x20 + rm
  {
    hide Coded, Cond, TypeOp, Bit25, Bit24, Bit23, Bit22, Bit21, Bit20, Rn, Rd, Imm12, RegisterList;
    hide Opcode, Rm, Rs, Bit4, ShiftKind, ShiftImm, Imm8, Bit5, Bit6, Bit7;
    DivModUnique(op * 2 + s, 2, op, s);
    ByFieldLow(imm, kind, rm);
    CodedTop(cond, 0, op * 2 + s, rn, rd, imm * 0x80 + kind * 0x20 + rm);
    CodedLow(cond, 0, op * 2 + s, rn, rd, imm * 0x80 + kind * 0x20 + rm);
    FieldsOfLow(CodedByField(cond, op, s, rn, rd, imm, kind, rm));
  }

  lemma ByRegisterLow(rs: FourBits, kind: nat, rm: FourBits)
    requires kind < 4
    ensures var x := rs * 0x100 + 0x10 + kind * 0x20 + rm;
      && x < 0x1000 && x % 16 == rm && x / 0x10 % 2 == 1 && x / 0x20 % 4 == kind && x / 0x80 == rs * 2
      && x / 0x100 == rs && x / 0x80 % 2 == 0
  {
    var x := rs * 0x100 + 0x10 + kind * 0x20 + rm;
    DivModUnique(x, 0x10, rs * 16 + kind * 2 + 1, rm);
    DivModUnique(x, 0x20, rs * 8 + kind, 0x10 + rm);
    DivModUnique(x, 0x80, rs * 2, 0x10 + kind * 0x20 + rm);
    DivModUnique(x, 0x100, rs, 0x10 + kind * 0x20 + rm);
    DivModUnique(rs * 8 + kind, 4, rs * 2, kind);
    OddPart(rs * 8 + kind, 1);
    OddPart(rs, 0);
  }

  lemma ByRegisterFields(cond: FourBits, op: FourBits, s: Flag, rn: FourBits, rd: FourBits,
                         rs: FourBits, kind: nat, rm: FourBits)
    requires kind < 4
    ensures var ins := CodedByRegister(cond, op, s, rn, rd, rs, kind, rm);
      && Cond(ins) == cond && TypeOp(ins) == 0 && Bit25(ins) == 0 && Opcode(ins) == op && Bit20(ins) == s
      && Rn(ins) == rn && Rd(ins) == rd && Rm(ins) == rm && Bit4(ins) == 1 && Bit7(ins) == 0
      && ShiftKind(ins) == kind && ShiftImm(ins) == rs * 2 && Rs(ins) == rs
  {
    hide Coded, Cond, TypeOp, Bit25, Bit24, Bit23, Bit22, Bit21, Bit20, Rn, Rd, Imm12, RegisterList;
    hide Opcode, Rm, Rs, Bit4, ShiftKind, ShiftImm, Imm8, Bit5, Bit6, Bit7;
    DivModUnique(op * 2 + s, 2, op, s);
    ByRegisterLow(rs, kind, rm);
    CodedTop(cond, 0, op * 2 + s, rn, rd, rs * 0x100 + 0x10 + kind * 0x20 + rm);
    CodedLow(cond, 0, op * 2 + s, rn, rd, rs * 0x100 + 0x10 + kind * 0x20 + rm);
    FieldsOfLow(CodedByRegister(cond, op, s, rn, rd, rs, kind, rm));
  }

  lemma LongFields(cond: FourBits, kind: nat, top: Flag, number: nat)
    requires kind < 8 && number < 0x100_0000
    ensures var ins := CodedLong(cond, kind, top, number);
      && Cond(ins) == cond && TypeOp(ins) == kind && Bit24(ins) == top
      && Offset24(ins) == number && ins % 0x100_0000 == number
  {
    var ins, q := CodedLong(cond, kind, top, number), (cond * 8 + kind) * 2 + top;
    DivModUnique(ins, 0x100_0000, q, number);
    DivModUnique(ins, 0x200_0000, cond * 8 + kind, top * 0x100_0000 + number);
    DivModUnique(ins, 0x1000_0000, cond, (kind * 2 + top) * 0x100_0000 + number);
    DivModUnique(cond * 8 + kind, 8, cond, kind);
    DivModUnique(q, 2, cond * 8 + kind, top);
  }
}
