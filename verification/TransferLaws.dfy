/** Single transfers from their instruction words: where each form of sections A5.2 and
    A5.3 reads or writes, and what becomes of every register. */
module TransferLaws {
  import opened Words
  import opened Builds
  import opened Registers
  import opened RegisterLaws
  import opened Memory
  import opened MemoryRuns
  import opened Core
  import opened Fields
  import opened Encodings
  import opened Decode
  import opened ShifterLaws
  import opened LoadStore
  import opened OperandLaws
  import opened SubWordLaws
  import opened Instruction

  /** Base plus or minus offset. */
  function Reach(base: Word, offset: nat, up: Flag): Word {
    if up == 1 then Trunc(base + offset) else Trunc(base - offset)
  }

  /** Only a post-indexed transfer starts at the base. */
  function Start(base: Word, target: Word, p: Flag): Word {
    if p == 0 then base else target
  }

  /** The base moves after a post-indexed transfer, and with W. */
  predicate Moves(p: Flag, w: Flag) {
    p == 0 || w == 1
  }

  /** Of the registers of the mode, the CPSR and running on, s' has those of s but for
      the base, if it is moved, and the destination, if it is loaded, which wins when they
      are one. */
  ghost predicate Transferred(s: State, s': State, rn: FourBits, moved: bool, target: Word,
                              rd: FourBits, loaded: bool, value: Word) {
    && s'.stop == s.stop && Cpsr(s') == Cpsr(s)
    && (forall r: nat :: r < 15 ==>
          ReadR(s', r) == if loaded && r == rd then value else if moved && r == rn then target else ReadR(s, r))
    && s'.regs[PC] == (if loaded && rd == PC then value else if moved && rn == PC then target else s.regs[PC])
  }

  /** The memory of s' is that of s with a value of width w at a. */
  ghost predicate Placed(m: Mem, m': Mem, a: Word, w: Width, value: nat) {
    && |m'.bytes| == |m.bytes| && m'.big == m.big && a + Size(w) <= |m.bytes|
    && Load(m', a, w) == value
    && forall i: nat :: i < |m.bytes| && !(a <= i < a + Size(w)) ==> m'.bytes[i] == m.bytes[i]
  }

  lemma WriteViews(b: Build, s: State, reg: FourBits, value: Word)
    requires Known(ModeOf(s))
    ensures var s' := WriteR(b, s, reg, value);
      && s'.mem == s.mem && ModeOf(s') == ModeOf(s)
      && Transferred(s, s', 0, false, 0, reg, true, value)
  {
    WriteKeepsCpsr(b.loneBank, s.regs, reg, value);
    forall r: nat | r < 15
      ensures ReadR(WriteR(b, s, reg, value), r) == if r == reg then value else ReadR(s, r)
    {
      CellsFollowManual(ModeOf(s), reg, ModeOf(s), r);
    }
    CellsFollowManual(ModeOf(s), reg, ModeOf(s), PC);
    hide PcSeen;
  }

  lemma MovedViews(b: Build, s: State, ins: Word, offset: nat)
    requires Known(ModeOf(s)) && Condition(Cpsr(s), Cond(ins))
    ensures var s1, target := Moved(b, s, ins, offset), Reach(ReadR(s, Rn(ins)), offset, Bit23(ins));
      && s1.mem == s.mem && ModeOf(s1) == ModeOf(s)
      && Transferred(s, s1, Rn(ins), Moves(Bit24(ins), Bit21(ins)), target, 0, false, 0)
  {
    hide Condition, Cond, Rn, Bit24, Bit23, Bit21, ReadR, WriteR, Trunc, Known, ModeOf;
    RnNumber(ins);
    WriteViews(b, s, Rn(ins), Reach(ReadR(s, Rn(ins)), offset, Bit23(ins)));
  }

  lemma RnNumber(ins: Word)
    ensures Rn(ins) < 16 && Rd(ins) < 16
  {
  }

  lemma ThenLoaded(b: Build, s: State, s1: State, rn: FourBits, moved: bool, target: Word, rd: FourBits, value: Word)
    requires Known(ModeOf(s1)) && Transferred(s, s1, rn, moved, target, 0, false, 0)
    ensures Transferred(s, WriteR(b, s1, rd, value), rn, moved, target, rd, true, value)
    ensures WriteR(b, s1, rd, value).mem == s1.mem
  {
    hide ReadR, WriteR, Known, ModeOf;
    WriteViews(b, s1, rd, value);
  }

  lemma ThenPoked(s: State, s1: State, mem: Mem, rn: FourBits, moved: bool, target: Word)
    requires Transferred(s, s1, rn, moved, target, 0, false, 0)
    ensures Transferred(s, s1.(mem := mem), rn, moved, target, 0, false, 0)
  {
    forall r: nat ensures ReadR(s1.(mem := mem), r) == ReadR(s1, r) {
    }
    hide ReadR;
  }

  lemma StorePlaces(m: Mem, a: Word, w: Width, v: Word)
    requires a + Size(w) <= |m.bytes| && v < Limit(w)
    ensures Placed(m, Store(m, a, w, v), a, w, v)
  {
    hide Store, Load;
    LoadStored(m, a, w, v);
    forall i: nat | i < |m.bytes| && !(a <= i < a + Size(w)) ensures Store(m, a, w, v).bytes[i] == m.bytes[i] {
      StoredByte(m, a, w, v, i);
    }
  }

  // ---------- words and unsigned bytes ----------

  /** The operand a register offset is shifted from. */
  function OffsetOperand(s: State, low: nat): Operand {
    Operand(low / 0x20 % 4, false, ReadR(s, low % 16), ReadR(s, low / 0x100) % 0x100, low / 0x80, CFlag(Cpsr(s)))
  }

  /** Bits 11..0 as an offset: an immediate, or a register shifted by a field, of which
      line 245 keeps 16 bits. */
  function Offset(s: State, i: Flag, low: nat): nat {
    if i == 0 then low else Manual(OffsetOperand(s, low)).0 % 0x1_0000
  }

  /** Bit 4 of a register offset is clear, and the shifter is repaired or right for it as
      written. */
  predicate Offered(b: Build, s: State, i: Flag, low: nat) {
    low < 0x1000 && (i == 1 ==> low / 0x10 % 2 == 0 && (b.shifter || ValueGuard(s, OffsetOperand(s, low))))
  }

  function WidthOf(byte: Flag): Width {
    if byte == 1 then B1 else W4
  }

  function Target(s: State, i: Flag, u: Flag, rn: FourBits, low: nat): Word {
    Reach(ReadR(s, rn), Offset(s, i, low), u)
  }

  function Address(s: State, i: Flag, p: Flag, u: Flag, rn: FourBits, low: nat): Word {
    Start(ReadR(s, rn), Target(s, i, u, rn, low), p)
  }

  lemma SingleDispatched(b: Build, s: State, cond: FourBits, i: Flag, p: Flag, u: Flag, byte: Flag, w: Flag, l: Flag,
                         rn: FourBits, rd: FourBits, low: nat)
    requires Condition(Cpsr(s), cond) && Offered(b, s, i, low)
    ensures var ins := CodedSingle(cond, i, p, u, byte, w, l, rn, rd, low);
      && Dispatched(b, s, ins) == WordByte(b, s, ins)
      && Cond(ins) == cond && Rn(ins) == rn && Rd(ins) == rd && Bit20(ins) == l && Bit21(ins) == w && Bit22(ins) == byte
      && Bit23(ins) == u && Bit24(ins) == p
      && WordOffset(b, s, ins) == Offset(s, i, low) && WordAddress(b, s, ins) == Address(s, i, p, u, rn, low)
  {
    hide Condition, WordByte, ReadR, Manual, ValueGuard, CodedSingle, HandlingOffset, Trunc, CFlag;
    hide Cond, TypeOp, Bit25, Bit24, Bit23, Bit22, Bit21, Bit20, Rn, Rd, Imm12, Rm, Rs, Bit4, ShiftKind, ShiftImm;
    var ins := CodedSingle(cond, i, p, u, byte, w, l, rn, rd, low);
    SingleFields(cond, i, p, u, byte, w, l, rn, rd, low);
    if i == 1 {
      assert OperandOf(s, ins) == OffsetOperand(s, low);
      OffsetTaken(b, s, ins);
    }
    hide WordOffset, Offset, OperandOf, OffsetOperand;
    ReachHandled(ReadR(s, rn), WordOffset(b, s, ins), u);
  }

  lemma ReachHandled(base: Word, offset: nat, u: Flag)
    ensures HandlingOffset(base, offset, u) == Reach(base, offset, u)
  {
  }

  /** LDR and LDRB in all their forms: Rd receives the word or byte at the base, or at
      base plus or minus the offset; the base is moved by post-indexing and W, and no
      other register, the CPSR nor memory change. */
  lemma SingleLoad(b: Build, s: State, cond: FourBits, i: Flag, p: Flag, u: Flag, byte: Flag, w: Flag,
                   rn: FourBits, rd: FourBits, low: nat)
    requires Known(ModeOf(s)) && Condition(Cpsr(s), cond) && Offered(b, s, i, low)
    requires Inside(s.mem, Address(s, i, p, u, rn, low), WidthOf(byte))
    ensures var s' := Dispatched(b, s, CodedSingle(cond, i, p, u, byte, w, 1, rn, rd, low));
      && s'.mem == s.mem
      && Transferred(s, s', rn, Moves(p, w), Target(s, i, u, rn, low),
                     rd, true, Load(s.mem, Address(s, i, p, u, rn, low), WidthOf(byte)))
  {
    assert low < 0x1000;
    hide Condition, Dispatched, ReadR, Load, Known, ModeOf, CodedSingle;
    hide Cond, Rn, Rd, Bit20, Bit21, Bit22, Bit23, Bit24;
    hide WordOffset, Offset, WordAddress, Moved, Transferred, Reach, Offered, Refused;
    SingleDispatched(b, s, cond, i, p, u, byte, w, 1, rn, rd, low);
    var ins, a := CodedSingle(cond, i, p, u, byte, w, 1, rn, rd, low), Address(s, i, p, u, rn, low);
    MovedViews(b, s, ins, Offset(s, i, low));
    GuardExact(s.mem, a, WidthOf(byte));
    var s1 := Moved(b, s, ins, Offset(s, i, low));
    hide Address;
    assert WordByte(b, s, ins) == WriteR(b, s1, rd, Load(s.mem, a, WidthOf(byte)));
    ThenLoaded(b, s, s1, rn, Moves(p, w), Target(s, i, u, rn, low), rd, Load(s.mem, a, WidthOf(byte)));
  }

  /** What a store of Rd stores, after the base has moved: with T, post-indexed with W,
      the register of USR mode. */
  function Source(s: State, rn: FourBits, moved: bool, target: Word, rd: FourBits, user: bool): Word {
    if !user then
      if moved && rd == rn then Seen(rd, target) else ReadR(s, rd)
    else if moved && rd == rn && PhysicalOf(ModeOf(s), rd) == PhysicalOf(0x10, rd) then Seen(rd, target)
    else Seen(rd, View(s.regs, 0x10, rd))
  }

  /** The PC is seen 4 further on. */
  function Seen(rd: FourBits, value: Word): Word {
    if rd == PC then PcSeen(value) else value
  }

  lemma SourceRead(b: Build, s: State, ins: Word, offset: nat, user: bool)
    requires Known(ModeOf(s)) && Condition(Cpsr(s), Cond(ins))
    ensures var s1, moved := Moved(b, s, ins, offset), Moves(Bit24(ins), Bit21(ins));
      var target := Reach(ReadR(s, Rn(ins)), offset, Bit23(ins));
      (if user then ReadUsrR(s1, Rd(ins)) else ReadR(s1, Rd(ins))) == Source(s, Rn(ins), moved, target, Rd(ins), user)
  {
    hide Condition, Cond, Rn, Rd, Bit24, Bit23, Bit21, Trunc, PcSeen;
    RnNumber(ins);
    var target := Reach(ReadR(s, Rn(ins)), offset, Bit23(ins));
    MovedViews(b, s, ins, offset);
    UserCells(b, s, Rn(ins), target, Rd(ins));
    UserRead(s.regs, ModeOf(s), Rd(ins));
    hide Cell, PhysicalOf, Write, Known;
  }

  /** A write reaches the user cell of a register exactly when it is of that register and
      the mode shares it. */
  lemma UserCells(b: Build, s: State, rn: FourBits, value: Word, rd: FourBits)
    requires Known(ModeOf(s))
    ensures WriteR(b, s, rn, value).regs[rd] ==
      if rd == rn && PhysicalOf(ModeOf(s), rd) == PhysicalOf(0x10, rd) then value else s.regs[rd]
  {
  }

  lemma StoreShape(b: Build, s: State, ins: Word)
    requires Bit20(ins) == 0 && Inside(s.mem, WordAddress(b, s, ins), WidthOf(Bit22(ins)))
    ensures var s1, w := Moved(b, s, ins, WordOffset(b, s, ins)), WidthOf(Bit22(ins));
      var user := Bit24(ins) == 0 && Bit21(ins) == 1;
      var v := if user then ReadUsrR(s1, Rd(ins)) else ReadR(s1, Rd(ins));
      && s1.mem == s.mem
      && WordByte(b, s, ins) == s1.(mem := Store(s.mem, WordAddress(b, s, ins), w, v % Limit(w)))
  {
    hide Moved, WordOffset, WordAddress, ReadR, ReadUsrR, Store, Refused, Rd, Bit20, Bit21, Bit22, Bit24;
    GuardExact(s.mem, WordAddress(b, s, ins), WidthOf(Bit22(ins)));
    MovedKeeps(b, s, ins, WordOffset(b, s, ins));
  }

  /** STR and STRB in all their forms: Rd, read once the base has moved, is at the base,
      or at base plus or minus the offset, and no other byte, register or flag changes. */
  lemma SingleStore(b: Build, s: State, cond: FourBits, i: Flag, p: Flag, u: Flag, byte: Flag, w: Flag,
                    rn: FourBits, rd: FourBits, low: nat)
    requires Known(ModeOf(s)) && Condition(Cpsr(s), cond) && Offered(b, s, i, low)
    requires Inside(s.mem, Address(s, i, p, u, rn, low), WidthOf(byte))
    ensures var s', target := Dispatched(b, s, CodedSingle(cond, i, p, u, byte, w, 0, rn, rd, low)),
                              Target(s, i, u, rn, low);
      && Transferred(s, s', rn, Moves(p, w), target, 0, false, 0)
      && Placed(s.mem, s'.mem, Address(s, i, p, u, rn, low), WidthOf(byte),
                Source(s, rn, Moves(p, w), target, rd, p == 0 && w == 1) % Limit(WidthOf(byte)))
  {
    assert low < 0x1000;
    hide Condition, Dispatched, ReadR, ReadUsrR, Store, Known, ModeOf, CodedSingle, Cond, Rn, Rd;
    hide Bit20, Bit21, Bit22, Bit23, Bit24, Source, Placed;
    hide WordOffset, Offset, WordAddress, Moved, Transferred, Reach, Offered, Refused;
    SingleDispatched(b, s, cond, i, p, u, byte, w, 0, rn, rd, low);
    var ins, a := CodedSingle(cond, i, p, u, byte, w, 0, rn, rd, low), Address(s, i, p, u, rn, low);
    MovedViews(b, s, ins, Offset(s, i, low));
    SourceRead(b, s, ins, Offset(s, i, low), p == 0 && w == 1);
    StoreShape(b, s, ins);
    var s1 := Moved(b, s, ins, Offset(s, i, low));
    hide Address, WordByte;
    var v := Source(s, rn, Moves(p, w), Target(s, i, u, rn, low), rd, p == 0 && w == 1) % Limit(WidthOf(byte));
    var mem := Store(s.mem, a, WidthOf(byte), v);
    ThenPoked(s, s1, mem, rn, Moves(p, w), Target(s, i, u, rn, low));
    StorePlaces(s.mem, a, WidthOf(byte), v);
  }

  /** An access that is refused, for straddling two words or beginning beyond four times
      the array, moves the base as one that is served and does nothing else. */
  lemma SingleRefused(b: Build, s: State, cond: FourBits, i: Flag, p: Flag, u: Flag, byte: Flag, w: Flag, l: Flag,
                      rn: FourBits, rd: FourBits, low: nat)
    requires Known(ModeOf(s)) && Condition(Cpsr(s), cond) && Offered(b, s, i, low)
    requires var a := Address(s, i, p, u, rn, low);
      a >= 4 * |s.mem.bytes| + 4 || (a + Size(WidthOf(byte)) - 1) / 4 != a / 4
    ensures var s' := Dispatched(b, s, CodedSingle(cond, i, p, u, byte, w, l, rn, rd, low));
      s'.mem == s.mem && Transferred(s, s', rn, Moves(p, w), Target(s, i, u, rn, low), 0, false, 0)
  {
    assert low < 0x1000;
    hide Condition, Dispatched, ReadR, ReadUsrR, Known, ModeOf, CodedSingle, Cond, Rn, Rd;
    hide Bit20, Bit21, Bit22, Bit23, Bit24, Store, Load;
    hide WordOffset, Offset, WordAddress, Moved, Transferred, Reach, Offered, Refused;
    SingleDispatched(b, s, cond, i, p, u, byte, w, l, rn, rd, low);
    var ins, a := CodedSingle(cond, i, p, u, byte, w, l, rn, rd, low), Address(s, i, p, u, rn, low);
    MovedViews(b, s, ins, Offset(s, i, low));
    GuardExact(s.mem, a, WidthOf(byte));
    hide Address;
    assert WordByte(b, s, ins) == Moved(b, s, ins, Offset(s, i, low));
  }

  /** An access the guard lets through past the array stops the machine. */
  lemma SinglePast(b: Build, s: State, cond: FourBits, i: Flag, p: Flag, u: Flag, byte: Flag, w: Flag, l: Flag,
                   rn: FourBits, rd: FourBits, low: nat)
    requires Condition(Cpsr(s), cond) && Offered(b, s, i, low)
    requires var a, n := Address(s, i, p, u, rn, low), Size(WidthOf(byte));
      a < 4 * |s.mem.bytes| + 4 && a + n > |s.mem.bytes| && (a + n - 1) / 4 == a / 4
    ensures var s' := Dispatched(b, s, CodedSingle(cond, i, p, u, byte, w, l, rn, rd, low));
      s'.stop == Overrun && s'.mem == s.mem
  {
    assert low < 0x1000;
    hide Condition, Dispatched, ReadR, ReadUsrR, Known, ModeOf, CodedSingle, Cond, Rn, Rd;
    hide Bit20, Bit21, Bit22, Bit23, Bit24, Store, Load;
    hide WordOffset, Offset, WordAddress, Moved, Reach, Offered, Refused;
    SingleDispatched(b, s, cond, i, p, u, byte, w, l, rn, rd, low);
    var ins, a := CodedSingle(cond, i, p, u, byte, w, l, rn, rd, low), Address(s, i, p, u, rn, low);
    MovedKeeps(b, s, ins, Offset(s, i, low));
    GuardExact(s.mem, a, WidthOf(byte));
    hide Address;
    assert WordByte(b, s, ins) == Moved(b, s, ins, Offset(s, i, low)).(stop := Overrun);
  }

  // ---------- halves and signed bytes ----------

  /** As written a clear I bit stands for the immediate and a set one for the low half of
      a register (lines 355 and 360). */
  function HalfReach(s: State, i: Flag, u: Flag, rn: FourBits, high: FourBits, low: FourBits): Word {
    Reach(ReadR(s, rn), if i == 0 then high * 0x10 + low else ReadR(s, low) % 0x1_0000, u)
  }

  function HalfStart(s: State, i: Flag, p: Flag, u: Flag, rn: FourBits, high: FourBits, low: FourBits): Word {
    Start(ReadR(s, rn), HalfReach(s, i, u, rn, high, low), p)
  }

  lemma HalfDispatched(b: Build, s: State, cond: FourBits, p: Flag, u: Flag, i: Flag, w: Flag, l: Flag,
                       rn: FourBits, rd: FourBits, high: FourBits, sign: Flag, h: Flag, low: FourBits)
    requires Condition(Cpsr(s), cond)
    ensures var ins := CodedHalf(cond, p, u, i, w, l, rn, rd, high, sign, h, low);
      && Cond(ins) == cond && Rn(ins) == rn && Rd(ins) == rd && Bit20(ins) == l && Bit21(ins) == w
      && Bit23(ins) == u && Bit24(ins) == p && Bit6(ins) == sign && Bit5(ins) == h
      && Dispatched(b, s, ins) == Miscellaneous(b, s, ins)
      && Reach(ReadR(s, rn), HalfOffset(s, ins), u) == HalfReach(s, i, u, rn, high, low)
      && HalfAddress(s, ins) == HalfStart(s, i, p, u, rn, high, low)
  {
    hide Condition, Miscellaneous, ReadR, CodedHalf, HandlingOffset, Reach;
    hide Cond, TypeOp, Bit24, Bit23, Bit22, Bit21, Bit20, Rn, Rd, Rm, Rs, Bit7, Bit6, Bit5, Bit4;
    var ins := CodedHalf(cond, p, u, i, w, l, rn, rd, high, sign, h, low);
    HalfFields(cond, p, u, i, w, l, rn, rd, high, sign, h, low);
    ReachHandled(ReadR(s, rn), HalfOffset(s, ins), u);
  }

  /** The width and what is put in the register: LDRH, or with S the sign, which as
      written is lost. */
  function HalfWidth(h: Flag): Width {
    if h == 1 then H2 else B1
  }

  function HalfValue(b: Build, v: Word, sign: Flag, h: Flag): Word {
    if sign == 1 && b.signedLoads then SignedLow(v, HalfWidth(h)) else v
  }

  lemma ExtendsSign(b: Build, v: Word, h: Flag)
    requires v < Limit(HalfWidth(h))
    ensures SignExtended(b, v, if HalfWidth(h) == B1 then 0x80 else 0x8000) == HalfValue(b, v, 1, h)
  {
  }

  /** LDRH, LDRSH and LDRSB in the forms the code takes: Rd receives the half or byte, the
      base is moved by post-indexing and W, and no other register, the CPSR nor memory
      change. */
  lemma HalfLoad(b: Build, s: State, cond: FourBits, p: Flag, u: Flag, i: Flag, w: Flag,
                 rn: FourBits, rd: FourBits, high: FourBits, sign: Flag, h: Flag, low: FourBits)
    requires Known(ModeOf(s)) && Condition(Cpsr(s), cond) && (p == 1 || w == 1) && (sign == 1 || h == 1)
    requires Inside(s.mem, HalfStart(s, i, p, u, rn, high, low), HalfWidth(h))
    ensures var s' := Dispatched(b, s, CodedHalf(cond, p, u, i, w, 1, rn, rd, high, sign, h, low));
      && s'.mem == s.mem
      && Transferred(s, s', rn, Moves(p, w), HalfReach(s, i, u, rn, high, low), rd, true,
                     HalfValue(b, Load(s.mem, HalfStart(s, i, p, u, rn, high, low), HalfWidth(h)), sign, h))
  {
    hide Condition, Dispatched, ReadR, Load, Known, ModeOf, CodedHalf, Cond, Rn, Rd;
    hide Bit20, Bit21, Bit23, Bit24, Bit6, Bit5, HalfValue;
    hide HalfOffset, Moved, Transferred, Reach, Refused, Miscellaneous, HalfAddress, SignExtended;
    HalfDispatched(b, s, cond, p, u, i, w, 1, rn, rd, high, sign, h, low);
    var ins, a := CodedHalf(cond, p, u, i, w, 1, rn, rd, high, sign, h, low), HalfStart(s, i, p, u, rn, high, low);
    var s1 := Moved(b, s, ins, HalfOffset(s, ins));
    MovedViews(b, s, ins, HalfOffset(s, ins));
    MovedKeeps(b, s, ins, HalfOffset(s, ins));
    MiscellaneousShape(b, s, ins);
    GuardExact(s.mem, a, HalfWidth(h));
    hide HalfStart, HalfReach;
    LoadBound(s.mem, a, HalfWidth(h));
    var v := Load(s.mem, a, HalfWidth(h));
    ExtendsSign(b, v, h);
    Unsigned(b, v, h);
    assert HalfByte(b, s1, ins, a) == WriteR(b, s1, rd, HalfValue(b, v, sign, h));
    hide HalfByte;
    ThenLoaded(b, s, s1, rn, Moves(p, w), HalfReach(s, i, u, rn, high, low), rd, HalfValue(b, v, sign, h));
  }

  lemma Unsigned(b: Build, v: Word, h: Flag)
    ensures HalfValue(b, v, 0, h) == v
  {
  }

  /** STRH in the forms the code takes. */
  lemma HalfStore(b: Build, s: State, cond: FourBits, p: Flag, u: Flag, i: Flag, w: Flag,
                  rn: FourBits, rd: FourBits, high: FourBits, low: FourBits)
    requires Known(ModeOf(s)) && Condition(Cpsr(s), cond) && (p == 1 || w == 1)
    requires Inside(s.mem, HalfStart(s, i, p, u, rn, high, low), H2)
    ensures var s', target := Dispatched(b, s, CodedHalf(cond, p, u, i, w, 0, rn, rd, high, 0, 1, low)),
                              HalfReach(s, i, u, rn, high, low);
      && Transferred(s, s', rn, Moves(p, w), target, 0, false, 0)
      && Placed(s.mem, s'.mem, HalfStart(s, i, p, u, rn, high, low), H2,
                Source(s, rn, Moves(p, w), target, rd, false) % 0x1_0000)
  {
    hide Condition, Dispatched, ReadR, Store, Known, ModeOf, CodedHalf, Cond, Rn, Rd;
    hide Bit20, Bit21, Bit23, Bit24, Bit6, Bit5, Source, Placed;
    hide HalfOffset, Moved, Transferred, Reach, Refused, Miscellaneous, HalfAddress;
    HalfDispatched(b, s, cond, p, u, i, w, 0, rn, rd, high, 0, 1, low);
    var ins, a := CodedHalf(cond, p, u, i, w, 0, rn, rd, high, 0, 1, low), HalfStart(s, i, p, u, rn, high, low);
    var s1 := Moved(b, s, ins, HalfOffset(s, ins));
    MovedViews(b, s, ins, HalfOffset(s, ins));
    MovedKeeps(b, s, ins, HalfOffset(s, ins));
    SourceRead(b, s, ins, HalfOffset(s, ins), false);
    MiscellaneousShape(b, s, ins);
    GuardExact(s.mem, a, H2);
    hide HalfStart, HalfReach;
    var v := Source(s, rn, Moves(p, w), HalfReach(s, i, u, rn, high, low), rd, false) % 0x1_0000;
    var mem := Store(s.mem, a, H2, v);
    assert HalfByte(b, s1, ins, a) == s1.(mem := mem);
    hide HalfByte;
    ThenPoked(s, s1, mem, rn, Moves(p, w), HalfReach(s, i, u, rn, high, low));
    StorePlaces(s.mem, a, H2, v);
  }

  /** The other words of this class, LDRD and STRD among them, and accesses that are
      refused move the base and do nothing else, */
  lemma HalfNothing(b: Build, s: State, cond: FourBits, p: Flag, u: Flag, i: Flag, w: Flag, l: Flag,
                    rn: FourBits, rd: FourBits, high: FourBits, sign: Flag, h: Flag, low: FourBits)
    requires Known(ModeOf(s)) && Condition(Cpsr(s), cond) && (p == 1 || w == 1)
    requires var a := HalfStart(s, i, p, u, rn, high, low);
      || (sign == 0 && h == 0) || (l == 0 && sign == 1)
      || a >= 4 * |s.mem.bytes| + 4 || (a + Size(HalfWidth(h)) - 1) / 4 != a / 4
    ensures var s' := Dispatched(b, s, CodedHalf(cond, p, u, i, w, l, rn, rd, high, sign, h, low));
      s'.mem == s.mem && Transferred(s, s', rn, Moves(p, w), HalfReach(s, i, u, rn, high, low), 0, false, 0)
  {
    hide Condition, Dispatched, ReadR, Store, Load, Known, ModeOf, CodedHalf, Cond, Rn, Rd;
    hide Bit20, Bit21, Bit23, Bit24, Bit6, Bit5;
    hide HalfOffset, Moved, Transferred, Reach, Refused, Miscellaneous, HalfAddress, SignExtended;
    HalfDispatched(b, s, cond, p, u, i, w, l, rn, rd, high, sign, h, low);
    var ins, a := CodedHalf(cond, p, u, i, w, l, rn, rd, high, sign, h, low), HalfStart(s, i, p, u, rn, high, low);
    var s1 := Moved(b, s, ins, HalfOffset(s, ins));
    MovedViews(b, s, ins, HalfOffset(s, ins));
    MovedKeeps(b, s, ins, HalfOffset(s, ins));
    MiscellaneousShape(b, s, ins);
    GuardExact(s.mem, a, HalfWidth(h));
    hide HalfStart, HalfReach;
    assert HalfByte(b, s1, ins, a) == s1;
  }

  /** past the array they stop the machine, */
  lemma HalfPast(b: Build, s: State, cond: FourBits, p: Flag, u: Flag, i: Flag, w: Flag, l: Flag,
                 rn: FourBits, rd: FourBits, high: FourBits, sign: Flag, h: Flag, low: FourBits)
    requires Condition(Cpsr(s), cond) && (p == 1 || w == 1)
    requires if l == 1 then sign == 1 || h == 1 else sign == 0 && h == 1
    requires var a, n := HalfStart(s, i, p, u, rn, high, low), Size(HalfWidth(h));
      a < 4 * |s.mem.bytes| + 4 && a + n > |s.mem.bytes| && (a + n - 1) / 4 == a / 4
    ensures var s' := Dispatched(b, s, CodedHalf(cond, p, u, i, w, l, rn, rd, high, sign, h, low));
      s'.stop == Overrun && s'.mem == s.mem
  {
    hide Condition, Dispatched, ReadR, Store, Load, Known, ModeOf, CodedHalf, Cond, Rn, Rd;
    hide Bit20, Bit21, Bit23, Bit24, Bit6, Bit5;
    hide HalfOffset, Moved, Reach, Refused, Miscellaneous, HalfAddress, SignExtended;
    HalfDispatched(b, s, cond, p, u, i, w, l, rn, rd, high, sign, h, low);
    var ins, a := CodedHalf(cond, p, u, i, w, l, rn, rd, high, sign, h, low), HalfStart(s, i, p, u, rn, high, low);
    var s1 := Moved(b, s, ins, HalfOffset(s, ins));
    MovedKeeps(b, s, ins, HalfOffset(s, ins));
    MiscellaneousShape(b, s, ins);
    GuardExact(s.mem, a, HalfWidth(h));
    hide HalfStart, HalfReach;
    assert HalfByte(b, s1, ins, a) == s1.(stop := Overrun);
  }

  /** and post-indexed without W they do nothing at all. */
  lemma HalfUntaken(b: Build, s: State, cond: FourBits, u: Flag, i: Flag, l: Flag,
                    rn: FourBits, rd: FourBits, high: FourBits, sign: Flag, h: Flag, low: FourBits)
    ensures Dispatched(b, s, CodedHalf(cond, 0, u, i, 0, l, rn, rd, high, sign, h, low)) == s
  {
    hide Condition, Miscellaneous, CodedHalf;
    hide Cond, TypeOp, Bit24, Bit23, Bit22, Bit21, Bit20, Rn, Rd, Rm, Rs, Bit7, Bit6, Bit5, Bit4;
    HalfFields(cond, 0, u, i, 0, l, rn, rd, high, sign, h, low);
    PostIndexedDoesNothing(b, s, CodedHalf(cond, 0, u, i, 0, l, rn, rd, high, sign, h, low));
  }
}
