/** arm_load_store.c: single transfers of words, bytes and halves. */
module LoadStore {
  import opened Words
  import opened Builds
  import opened Memory
  import opened Core
  import opened Fields
  import opened Decode

  /** handling_offset; the offset is always a 16-bit value. */
  function HandlingOffset(address: Word, offset: nat, up: Flag): Word {
    if up == 1 then Trunc(address + offset) else Trunc(address - offset)
  }

  /** A load that is refused leaves rd alone; a store that is refused does nothing. */
  function LoadTo(b: Build, s: State, address: Word, w: Width, rd: nat): State {
    match Peek(s, address, w)
    case Value(v) => WriteR(b, s, rd, v)
    case Denied => s
    case Beyond => s.(stop := Overrun)
  }

  // ---------- words and unsigned bytes ----------

  /** Line 245: the offset is kept in 16 bits. */
  function WordOffset(b: Build, s: State, ins: Word): nat {
    if Bit25(ins) == 0 then Imm12(ins)
    else if Imm12(ins) / 0x10 == 0 then ReadR(s, Rm(ins)) % 0x1_0000
    else Shifted(b, s, OperandOf(s, ins)).0 % 0x1_0000
  }

  /** Where the base register moves: always after a post-indexed access, with W after
      a pre-indexed one. */
  function BaseMoves(s: State, ins: Word): bool {
    Condition(Cpsr(s), Cond(ins)) && (Bit24(ins) == 0 || Bit21(ins) == 1)
  }

  function WordAddress(b: Build, s: State, ins: Word): Word {
    if Bit24(ins) == 0 then ReadR(s, Rn(ins))
    else HandlingOffset(ReadR(s, Rn(ins)), WordOffset(b, s, ins), Bit23(ins))
  }

  function Moved(b: Build, s: State, ins: Word, offset: nat): State {
    if BaseMoves(s, ins)
    then WriteR(b, s, Rn(ins), HandlingOffset(ReadR(s, Rn(ins)), offset, Bit23(ins)))
    else s
  }

  /** word_byte_load_store. The base moves before rd is read or written. */
  function WordByte(b: Build, s: State, ins: Word): State {
    var address := WordAddress(b, s, ins);
    var s1 := Moved(b, s, ins, WordOffset(b, s, ins));
    var w := if Bit22(ins) == 0 then W4 else B1;
    if Bit20(ins) == 1 then LoadTo(b, s1, address, w, Rd(ins))
    else
      var value := if Bit24(ins) == 0 && Bit21(ins) == 1 then ReadUsrR(s1, Rd(ins)) else ReadR(s1, Rd(ins));
      Poke(s1, address, w, if w == B1 then value % 0x100 else value)
  }

  // ---------- halves and signed bytes ----------

  /** Lines 355 and 360: 16 bits, and the I bit taken the other way round. */
  function HalfOffset(s: State, ins: Word): nat {
    if Bit22(ins) == 0 then Rs(ins) * 0x10 + Rm(ins) else ReadR(s, Rm(ins)) % 0x1_0000
  }

  /** Lines 456-460 and 471-475: the extension is lost in a narrow variable. */
  function SignExtended(b: Build, v: Word, sign: Word): Word
    requires (sign == 0x80 && v < 0x100) || (sign == 0x8000 && v < 0x1_0000)
  {
    if b.signedLoads && v >= sign then v + 0x1_0000_0000 - 2 * sign else v
  }

  function LoadSigned(b: Build, s: State, address: Word, w: Width, rd: nat): State
    requires w != W4
  {
    match Peek(s, address, w)
    case Value(v) =>
      LoadBound(s.mem, address, w);
      WriteR(b, s, rd, SignExtended(b, v, if w == B1 then 0x80 else 0x8000))
    case Denied => s
    case Beyond => s.(stop := Overrun)
  }

  lemma LoadBound(m: Mem, a: nat, w: Width)
    requires a + Size(w) <= |m.bytes|
    ensures Load(m, a, w) < Limit(w)
  {
  }

  /** load_store_half_double_byte. The double-word forms ask for a misaligned
      address, which the memory refuses, so they do nothing. */
  function HalfByte(b: Build, s: State, ins: Word, address: Word): State {
    var code := 4 * Bit20(ins) + 2 * Bit6(ins) + Bit5(ins);
    var passes := Condition(Cpsr(s), Cond(ins));
    if code == 1 && passes then Poke(s, address, H2, ReadR(s, Rd(ins)) % 0x1_0000)
    else if code == 5 then LoadTo(b, s, address, H2, Rd(ins))
    else if code == 6 && passes then LoadSigned(b, s, address, B1, Rd(ins))
    else if code == 7 && passes then LoadSigned(b, s, address, H2, Rd(ins))
    else s
  }

  /** miscellaneous_load_store. Post-indexing asks for W and pre-indexing does not. */
  function Miscellaneous(b: Build, s: State, ins: Word): State {
    var offset := HalfOffset(s, ins);
    if Bit24(ins) == 0 && Bit21(ins) == 0 then s
    else
      var address := if Bit24(ins) == 0 then ReadR(s, Rn(ins))
                     else HandlingOffset(ReadR(s, Rn(ins)), offset, Bit23(ins));
      HalfByte(b, Moved(b, s, ins, offset), ins, address)
  }

  // ---------- the methods ----------

  method WordByteLoadStore(p: ArmCore, ins: Word)
    requires p.Valid()
    modifies p, p.reg.regs, p.mem.adresses
    ensures p.Snapshot() == WordByte(p.build, old(p.Snapshot()), ins)
  {
    hide Condition, ReadR, ReadUsrR, HandlingOffset, Shifted, OperandOf, WriteR, Cpsr, Poke, Peek;
    hide Bit25, Bit24, Bit23, Bit22, Bit21, Bit20, Rn, Rd, Rm, Imm12, Cond;
    var rn, rd, up := Rn(ins), Rd(ins), Bit23(ins);
    var val_rn := p.ReadRegister(rn);
    var offset: nat;
    if Bit25(ins) != 0 {
      if Imm12(ins) / 0x10 != 0 {
        var scaled, _ := Decode.Shift(p, ins);
        offset := scaled % 0x1_0000;
      } else {
        var rm := p.ReadRegister(Rm(ins));
        offset := rm % 0x1_0000;
      }
    } else {
      offset := Imm12(ins);
    }
    assert offset == WordOffset(p.build, p.Snapshot(), ins);
    hide WordOffset;
    var cpsr := p.ReadCpsr();
    var address: Word;
    if Bit24(ins) == 0 {
      address := val_rn;
      if Condition(cpsr, Cond(ins)) {
        val_rn := HandlingOffset(val_rn, offset, up);
        p.WriteRegister(rn, val_rn);
      }
    } else {
      address := HandlingOffset(val_rn, offset, up);
      if Bit21(ins) == 1 && Condition(cpsr, Cond(ins)) {
        p.WriteRegister(rn, address);
      }
    }
    assert p.Snapshot() == Moved(p.build, old(p.Snapshot()), ins, offset);
    assert address == WordAddress(p.build, old(p.Snapshot()), ins);
    hide Moved, WordAddress;
    if Bit20(ins) == 0 {
      var value: Word;
      if Bit24(ins) == 0 && Bit21(ins) == 1 {
        value := p.ReadUsrRegister(rd);
      } else {
        value := p.ReadRegister(rd);
      }
      if Bit22(ins) == 0 {
        var _ := p.WriteWord(address, value);
      } else {
        var _ := p.WriteByte(address, value % 0x100);
      }
    } else if Bit22(ins) == 0 {
      var status, value := p.ReadWord(address);
      if status == 0 {
        p.WriteRegister(rd, value);
      }
    } else {
      var status, value := p.ReadByte(address);
      if status == 0 {
        p.WriteRegister(rd, value);
      }
    }
  }

  lemma ByteMasks(v: nat)
    requires v < 0x100
    ensures Or(v, 0xFFFF_FF00) == v + 0xFFFF_FF00 && And(v, 0xF_00FF) == v
  {
    hide And, Or, Pow2;
    Pow2Of32();
    OrDisjoint(v, 8, 0xFF_FFFF);
    AndLowOnes(v, 8, 0xF00);
  }

  lemma HalfMasks(v: nat)
    requires v < 0x1_0000
    ensures Or(v, 0xFFFF_0000) == v + 0xFFFF_0000 && And(v, 0xF_FFFF) == v
  {
    hide And, Or, Pow2;
    Pow2Of32();
    OrDisjoint(v, 16, 0xFFFF);
    AndLowOnes(v, 16, 0xF);
  }

  /** The narrow variable of lines 453-461, or the wide one of the repair. */
  method ExtendByte(wide: bool, value: Byte) returns (r: Word)
    ensures r == if wide && value >= 0x80 then value + 0xFFFF_FF00 else value
  {
    hide And, Or;
    ByteMasks(value);
    if value >= 0x80 {
      r := OrWord(value, 0xFFFF_FF00);
    } else {
      r := And(value, 0xF_00FF);
    }
    if !wide {
      r := r % 0x100;
    }
  }

  /** Lines 468-476. */
  method ExtendHalf(wide: bool, value: nat) returns (r: Word)
    requires value < 0x1_0000
    ensures r == if wide && value >= 0x8000 then value + 0xFFFF_0000 else value
  {
    hide And, Or;
    HalfMasks(value);
    if value >= 0x8000 {
      r := OrWord(value, 0xFFFF_0000);
    } else {
      r := And(value, 0xF_FFFF);
    }
    if !wide {
      r := r % 0x1_0000;
    }
  }

  /** The word accesses of LDRD and STRD are refused for their misaligned address,
      so the code after a first access that succeeds is never reached. */
  method LoadStoreHalfDoubleByte(p: ArmCore, ins: Word, address: Word)
    requires p.Valid()
    modifies p, p.reg.regs, p.mem.adresses
    ensures p.Snapshot() == HalfByte(p.build, old(p.Snapshot()), ins, address)
  {
    hide Condition, ReadR, WriteR, Cpsr, Poke, Load;
    hide Bit20, Bit6, Bit5, Rd, Cond;
    var rd := Rd(ins);
    var cpsr := p.ReadCpsr();
    var passes := Condition(cpsr, Cond(ins));
    match 4 * Bit20(ins) + 2 * Bit6(ins) + Bit5(ins)
    case 1 =>
      if passes {
        var value := p.ReadRegister(rd);
        var _ := p.WriteHalf(address, value % 0x1_0000);
      }
    case 2 =>
      if passes && rd != 14 && rd % 2 == 0 && address % 4 != 0 {
        var status, _ := p.ReadWord(address);
        if status == 0 {
          assert false;
        }
      }
    case 3 =>
      if rd % 2 == 0 && rd != 14 && address % 4 != 0 && address / 4 % 2 == 0 {
        var value := p.ReadRegister(rd);
        RefusedWrite(p.Snapshot(), address, value);
        var _ := p.WriteWord(address, value);
      }
    case 5 =>
      var status, value := p.ReadHalf(address);
      if status == 0 {
        p.WriteRegister(rd, value);
      }
    case 6 =>
      if passes {
        var status, value := p.ReadByte(address);
        if status == 0 {
          var wide := ExtendByte(p.build.signedLoads, value);
          p.WriteRegister(rd, wide);
        }
      }
    case 7 =>
      if passes {
        var status, value := p.ReadHalf(address);
        if status == 0 {
          LoadBound(p.Snapshot().mem, address, H2);
          var wide := ExtendHalf(p.build.signedLoads, value);
          p.WriteRegister(rd, wide);
        }
      }
    case _ =>
  }

  lemma RefusedWrite(s: State, address: Word, value: Word)
    requires address % 4 != 0
    ensures Poke(s, address, W4, value) == s
  {
  }

  method MiscellaneousLoadStore(p: ArmCore, ins: Word)
    requires p.Valid()
    modifies p, p.reg.regs, p.mem.adresses
    ensures p.Snapshot() == Miscellaneous(p.build, old(p.Snapshot()), ins)
  {
    hide Condition, ReadR, HandlingOffset, WriteR, Cpsr, HalfByte;
    hide Bit24, Bit23, Bit22, Bit21, Rn, Rm, Rs, Cond;
    var rn, up := Rn(ins), Bit23(ins);
    var val_rn := p.ReadRegister(rn);
    var offset: nat;
    if Bit22(ins) == 0 {
      offset := Rs(ins) as int * 0x10 + Rm(ins);
    } else {
      var rm := p.ReadRegister(Rm(ins));
      offset := rm % 0x1_0000;
    }
    assert offset == HalfOffset(p.Snapshot(), ins);
    hide HalfOffset;
    var cpsr := p.ReadCpsr();
    if Bit24(ins) == 0 {
      if Bit21(ins) == 1 {
        if Condition(cpsr, Cond(ins)) {
          p.WriteRegister(rn, HandlingOffset(val_rn, offset, up));
        }
        LoadStoreHalfDoubleByte(p, ins, val_rn);
      }
    } else {
      var address := HandlingOffset(val_rn, offset, up);
      if Bit21(ins) == 1 && Condition(cpsr, Cond(ins)) {
        p.WriteRegister(rn, address);
      }
      LoadStoreHalfDoubleByte(p, ins, address);
    }
  }
}
