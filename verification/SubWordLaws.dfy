/** Halves and bytes stored and loaded back, under both endiannesses. */
module SubWordLaws {
  import opened Words
  import opened Builds
  import opened Registers
  import opened RegisterLaws
  import opened Memory
  import opened MemoryRuns
  import opened Core
  import opened Fields
  import opened Decode
  import opened LoadStore

  /** The signed value of the low 16 or 8 bits, as a word. */
  function SignedLow(v: Word, w: Width): Word
    requires w != W4
  {
    var low := v % Limit(w);
    if 2 * low < Limit(w) then low else Trunc(low - Limit(w))
  }

  /** The address a transfer of the halves-and-signed-bytes family uses. */
  function HalfAddress(s: State, ins: Word): Word {
    if Bit24(ins) == 0 then ReadR(s, Rn(ins))
    else HandlingOffset(ReadR(s, Rn(ins)), HalfOffset(s, ins), Bit23(ins))
  }

  /** What is done: the S, H and L bits; and the instruction is not the one the code
      refuses, post-indexed without W. */
  predicate Half(ins: Word, load: Flag, signed: Flag, half: Flag) {
    && Bit20(ins) == load && Bit6(ins) == signed && Bit5(ins) == half
    && !(Bit24(ins) == 0 && Bit21(ins) == 0)
  }

  /** The form the code refuses: an ordinary post-indexed transfer, which the manual
      writes with W clear (line 368), leaves everything as it is. */
  lemma PostIndexedDoesNothing(b: Build, s: State, ins: Word)
    requires Bit24(ins) == 0 && Bit21(ins) == 0
    ensures Miscellaneous(b, s, ins) == s
  {
  }

  /** Section A5.3: with bit 22 set the offset is the immediate in bits 11..8 and
      3..0, otherwise the register Rm. */
  function ManualHalfOffset(s: State, ins: Word): Word {
    if Bit22(ins) == 1 then Rs(ins) * 0x10 + Rm(ins) else ReadR(s, Rm(ins))
  }

  /** A post-indexed transfer uses the base itself, the others the base and offset. */
  function ManualHalfAddress(s: State, ins: Word): Word {
    if Bit24(ins) == 0 then ReadR(s, Rn(ins))
    else HandlingOffset(ReadR(s, Rn(ins)), ManualHalfOffset(s, ins), Bit23(ins))
  }

  /** When reading the I bit the other way round (line 360) does no harm: the register
      Rm holds what its number and bits 11..8 spell, in its low half if that is what
      the code takes for the offset. */
  predicate OffsetsAgree(s: State, ins: Word) {
    var field := Rs(ins) * 0x10 + Rm(ins);
    if Bit22(ins) == 1 then ReadR(s, Rm(ins)) % 0x1_0000 == field else ReadR(s, Rm(ins)) == field
  }

  /** The address is right exactly for the post-indexed forms and when the two offsets
      agree; the base moves to the right place exactly when they agree. */
  lemma HalfAddressExact(s: State, ins: Word)
    ensures HalfAddress(s, ins) == ManualHalfAddress(s, ins) <==> Bit24(ins) == 0 || OffsetsAgree(s, ins)
    ensures var base, up := ReadR(s, Rn(ins)), Bit23(ins);
      HandlingOffset(base, HalfOffset(s, ins), up) == HandlingOffset(base, ManualHalfOffset(s, ins), up)
      <==> OffsetsAgree(s, ins)
  {
    hide ReadR, Rn, Rs, Rm, Bit22, Bit23, Bit24, HandlingOffset;
    OffsetsDiffer(ReadR(s, Rn(ins)), HalfOffset(s, ins), ManualHalfOffset(s, ins), Bit23(ins));
  }

  /** Different offsets give different addresses. */
  lemma OffsetsDiffer(base: Word, x: Word, y: Word, up: Flag)
    ensures HandlingOffset(base, x, up) == HandlingOffset(base, y, up) <==> x == y
  {
  }

  lemma MovedKeeps(b: Build, s: State, ins: Word, offset: nat)
    ensures var s1 := Moved(b, s, ins, offset);
      s1.mem == s.mem && s1.stop == s.stop && Cpsr(s1) == Cpsr(s) && ModeOf(s1) == ModeOf(s)
  {
    WriteKeepsCpsr(b.loneBank, s.regs, Rn(ins), HandlingOffset(ReadR(s, Rn(ins)), offset, Bit23(ins)));
    hide Write, HandlingOffset, ReadR;
  }

  lemma MiscellaneousShape(b: Build, s: State, ins: Word)
    requires !(Bit24(ins) == 0 && Bit21(ins) == 0)
    ensures Miscellaneous(b, s, ins) == HalfByte(b, Moved(b, s, ins, HalfOffset(s, ins)), ins, HalfAddress(s, ins))
  {
    hide HalfByte, Moved, HalfOffset, HandlingOffset, ReadR;
  }

  /** STRH stores the low half of Rd (read after the base has moved) at its address
      and changes no other byte. */
  lemma StoreHalf(b: Build, s: State, ins: Word)
    requires Half(ins, 0, 0, 1) && Condition(Cpsr(s), Cond(ins)) && Inside(s.mem, HalfAddress(s, ins), H2)
    ensures var s1 := Moved(b, s, ins, HalfOffset(s, ins));
      Miscellaneous(b, s, ins).mem == Store(s.mem, HalfAddress(s, ins), H2, ReadR(s1, Rd(ins)) % 0x1_0000)
  {
    GuardExact(s.mem, HalfAddress(s, ins), H2);
    MiscellaneousShape(b, s, ins);
    MovedKeeps(b, s, ins, HalfOffset(s, ins));
    hide Miscellaneous, Moved, HalfOffset, HalfAddress, ReadR, Condition, Cond, Store, Bit20, Bit6, Bit5;
  }

  /** What a half or signed byte load leaves in Rd. */
  lemma LoadHalf(b: Build, s: State, ins: Word, w: Width)
    requires w == H2 || w == B1
    requires Half(ins, 1, 1, if w == H2 then 1 else 0) || (w == H2 && Half(ins, 1, 0, 1))
    requires Condition(Cpsr(s), Cond(ins)) && Inside(s.mem, HalfAddress(s, ins), w)
    requires Known(ModeOf(s)) && Rd(ins) < 15
    ensures var v := Load(s.mem, HalfAddress(s, ins), w);
      && v < Limit(w)
      && ReadR(Miscellaneous(b, s, ins), Rd(ins)) ==
         if Bit6(ins) == 0 then v else SignExtended(b, v, if w == B1 then 0x80 else 0x8000)
  {
    GuardExact(s.mem, HalfAddress(s, ins), w);
    var a := HalfAddress(s, ins);
    LoadBound(s.mem, a, w);
    var v := Load(s.mem, a, w);
    var s1 := Moved(b, s, ins, HalfOffset(s, ins));
    MiscellaneousShape(b, s, ins);
    MovedKeeps(b, s, ins, HalfOffset(s, ins));
    hide Miscellaneous, Moved, HalfOffset, HalfAddress, Condition, Cond, Load, Bit20, Bit6, Bit5, SignExtended;
    var result := if Bit6(ins) == 0 then v else SignExtended(b, v, if w == B1 then 0x80 else 0x8000);
    assert HalfByte(b, s1, ins, a) == WriteR(b, s1, Rd(ins), result);
    ReadWritten(b.loneBank, s1.regs, Rd(ins), result);
    hide HalfByte, Write, Read;
  }

  lemma SameRange(m: Mem, m': Mem, a: Word, w: Width)
    requires |m'.bytes| == |m.bytes|
    ensures Inside(m', a, w) == Inside(m, a, w)
  {
  }

  /** A half stored and loaded back from the same place: LDRH yields its value modulo
      2^16; LDRSH its signed value exactly when bit 15 is clear or the extension is
      repaired. */
  lemma StoreThenLoadHalf(b: Build, s: State, strh: Word, later: State, ldr: Word)
    requires Half(strh, 0, 0, 1) && Condition(Cpsr(s), Cond(strh)) && Inside(s.mem, HalfAddress(s, strh), H2)
    requires (Half(ldr, 1, 0, 1) || Half(ldr, 1, 1, 1)) && Condition(Cpsr(later), Cond(ldr))
    requires Known(ModeOf(later)) && Rd(ldr) < 15
    requires later.mem == Miscellaneous(b, s, strh).mem && HalfAddress(later, ldr) == HalfAddress(s, strh)
    ensures var v := ReadR(Moved(b, s, strh, HalfOffset(s, strh)), Rd(strh));
      var r := ReadR(Miscellaneous(b, later, ldr), Rd(ldr));
      && (Bit6(ldr) == 0 ==> r == v % 0x1_0000)
      && (Bit6(ldr) == 1 ==> (r == SignedLow(v, H2) <==> b.signedLoads || v % 0x1_0000 < 0x8000))
  {
    hide Moved, HalfOffset, HalfAddress, Miscellaneous, ReadR, Condition, Cond, Store, Load, Bit5, Bit20;
    hide Bit6, Bit21, Bit24;
    hide Refused;
    StoreHalf(b, s, strh);
    var v := ReadR(Moved(b, s, strh, HalfOffset(s, strh)), Rd(strh));
    LoadStored(s.mem, HalfAddress(s, strh), H2, v % 0x1_0000);
    SameRange(s.mem, later.mem, HalfAddress(s, strh), H2);
    LoadHalf(b, later, ldr, H2);
    hide Half;
  }

  /** The register STRB stores: with the post-indexed form and W, that of USR mode. */
  function StrbSource(s: State, ins: Word): Word {
    if Bit24(ins) == 0 && Bit21(ins) == 1 then ReadUsrR(s, Rd(ins)) else ReadR(s, Rd(ins))
  }

  /** STRB at an address, in the words-and-bytes family. */
  lemma StoreByte(b: Build, s: State, ins: Word)
    requires Bit20(ins) == 0 && Bit22(ins) == 1 && Inside(s.mem, WordAddress(b, s, ins), B1)
    ensures var s1 := Moved(b, s, ins, WordOffset(b, s, ins));
      WordByte(b, s, ins).mem == Store(s.mem, WordAddress(b, s, ins), B1, StrbSource(s1, ins) % 0x100)
  {
    GuardExact(s.mem, WordAddress(b, s, ins), B1);
    MovedKeeps(b, s, ins, WordOffset(b, s, ins));
    hide Moved, WordOffset, WordAddress, ReadR, ReadUsrR, Store, Bit20, Bit22, Bit24, Bit21;
  }

  lemma LoadByte(b: Build, s: State, ins: Word)
    requires Bit20(ins) == 1 && Bit22(ins) == 1 && Inside(s.mem, WordAddress(b, s, ins), B1)
    requires Known(ModeOf(s)) && Rd(ins) < 15
    ensures ReadR(WordByte(b, s, ins), Rd(ins)) == Load(s.mem, WordAddress(b, s, ins), B1)
  {
    GuardExact(s.mem, WordAddress(b, s, ins), B1);
    var s1, v := Moved(b, s, ins, WordOffset(b, s, ins)), Load(s.mem, WordAddress(b, s, ins), B1);
    MovedKeeps(b, s, ins, WordOffset(b, s, ins));
    hide Moved, WordOffset, WordAddress, ReadUsrR, Load, Bit20, Bit22, Bit24, Bit21;
    assert WordByte(b, s, ins) == WriteR(b, s1, Rd(ins), v);
    ReadWritten(b.loneBank, s1.regs, Rd(ins), v);
    hide WordByte, Write, Read;
  }

  /** A byte stored by STRB and loaded back from the same place: LDRB yields its value
      modulo 2^8; LDRSB its signed value exactly when bit 7 is clear or the extension
      is repaired. */
  lemma StoreThenLoadByte(b: Build, s: State, strb: Word, later: State, ldr: Word, signed: bool)
    requires Bit20(strb) == 0 && Bit22(strb) == 1
    requires Inside(s.mem, WordAddress(b, s, strb), B1)
    requires later.mem == WordByte(b, s, strb).mem && Known(ModeOf(later)) && Rd(ldr) < 15
    requires signed ==> Half(ldr, 1, 1, 0) && Condition(Cpsr(later), Cond(ldr))
                        && HalfAddress(later, ldr) == WordAddress(b, s, strb)
    requires !signed ==> Bit20(ldr) == 1 && Bit22(ldr) == 1 && WordAddress(b, later, ldr) == WordAddress(b, s, strb)
    ensures var v := StrbSource(Moved(b, s, strb, WordOffset(b, s, strb)), strb);
      && (!signed ==> ReadR(WordByte(b, later, ldr), Rd(ldr)) == v % 0x100)
      && (signed ==> (ReadR(Miscellaneous(b, later, ldr), Rd(ldr)) == SignedLow(v, B1)
                      <==> b.signedLoads || v % 0x100 < 0x80))
  {
    hide Moved, HalfOffset, HalfAddress, WordOffset, WordAddress, WordByte, Miscellaneous, ReadR, ReadUsrR;
    hide Condition, Cond, Store, Load, Bit5, Bit20, Bit6, Bit22, Bit21, Bit24, Refused;
    StoreByte(b, s, strb);
    var v := StrbSource(Moved(b, s, strb, WordOffset(b, s, strb)), strb);
    LoadStored(s.mem, WordAddress(b, s, strb), B1, v % 0x100);
    SameRange(s.mem, later.mem, WordAddress(b, s, strb), B1);
    if signed {
      LoadHalf(b, later, ldr, B1);
    } else {
      LoadByte(b, later, ldr);
    }
  }

  /** LDRD and STRD, whose alignment tests are reversed (lines 408 and 429), transfer
      nothing for any address and register: only the base may move. */
  lemma DoubleWordsDoNothing(b: Build, s: State, ins: Word)
    requires Bit20(ins) == 0 && Bit6(ins) == 1
    ensures Miscellaneous(b, s, ins) == s
            || Miscellaneous(b, s, ins) == Moved(b, s, ins, HalfOffset(s, ins))
  {
    hide Moved, HalfOffset, HandlingOffset, Condition, ReadR;
  }
}
