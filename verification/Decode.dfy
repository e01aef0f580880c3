/** decode.c: the condition field and the barrel shifter. */
module Decode {
  import opened Words
  import opened Builds
  import opened Core
  import opened Fields

  /** The condition field as a property of the flags; line 108 tests C or Z for HI. */
  predicate Holds(cond: nat, f: Flags) {
    match cond
    case 0 => f.z == 1
    case 1 => f.z == 0
    case 2 => f.c == 1
    case 3 => f.c == 0
    case 4 => f.n == 1
    case 5 => f.n == 0
    case 6 => f.v == 1
    case 7 => f.v == 0
    case 8 => f.c == 1 || f.z == 1
    case 9 => f.c == 0 || f.z == 1
    case 10 => f.n == f.v
    case 11 => f.n != f.v
    case 12 => f.z == 0 && f.n == f.v
    case 13 => f.z == 1 || f.n != f.v
    case 14 => true
    case _ => false
  }

  /** condition. */
  predicate Condition(cpsr: Word, cond: nat) {
    Holds(cond, FlagsOf(cpsr))
  }

  /** What the shifter works on: rs is the low byte of the register in bits 11..8,
      read for both forms; imm is the field in bits 11..7, of which a shift by
      register uses the upper four bits for that register's number. */
  datatype Operand = Operand(kind: nat, byReg: bool, rm: Word, rs: Byte, imm: nat, c: Flag)

  function OperandOf(s: State, ins: Word): Operand {
    Operand(ShiftKind(ins), Bit4(ins) == 1, ReadR(s, Rm(ins)),
            ReadR(s, Rs(ins)) % 0x100, ShiftImm(ins), CFlag(Cpsr(s)))
  }

  function Amount(o: Operand): nat {
    if o.byReg then o.rs else o.imm
  }

  /** Bits 4..0 of a shift amount. */
  function Low5(n: nat): (k: nat)
    ensures k < 32 && (n < 32 ==> k == n)
  {
    n % 32
  }

  /** n - 1 on an unsigned 32-bit variable. */
  function Before(n: nat): nat {
    if n == 0 then 0xFFFF_FFFF else n - 1
  }

  /** asr of util.h; the count is at least 1 wherever it is called. */
  function Asr(h: Host, x: Word, n: int): Word {
    OrWord(Shr(h, x, n), if Bit31(x) == 1 then Shl(h, 0xFFFF_FFFF, 32 - n) else 0)
  }

  /** ror of util.h. */
  function Ror(h: Host, x: Word, n: int): Word {
    OrWord(Shr(h, x, n), Shl(h, x, 32 - n))
  }

  /** Rotation by one place through the carry flag. */
  function Rrx(x: Word, c: Flag): Word {
    OrWord(c * 0x8000_0000, x / 2)
  }

  /** The word shift leaves in offset, as written. Lines 63, 31-32, 41-42. */
  function WrittenValue(h: Host, s: State, o: Operand): Word {
    var n := Amount(o);
    var fill := if Bit31(ReadR(s, o.rm % 0x100)) == 0 then 0 else 0xFFFF_FFFF;
    if o.byReg && n == 0 then o.rm
    else match o.kind
      case 0 => if o.byReg && (n > 32 || (n == 32 && o.imm == 0)) then 0 else Shl(h, o.rm, n)
      case 1 =>
        if o.byReg && (n > 32 || (n == 32 && o.imm == 0)) then 0
        else if !o.byReg && n == 0 && o.rs >= 32 then 0
        else Shr(h, o.rm, n)
      case 2 => if (o.byReg && n >= 32) || (!o.byReg && n == 0) then fill else Asr(h, o.rm, n)
      case _ =>
        if o.byReg && Low5(n) == 0 && o.imm == 0 then o.rm
        else if !o.byReg && n == 0 && Low5(o.rs) == 0 then Rrx(o.rm, o.c)
        else Ror(h, o.rm, n)
  }

  /** The carry, as written: a bit of the register that the shifted value's low
      byte numbers (lines 40-83). */
  function WrittenCarry(h: Host, s: State, o: Operand, value: Word): Flag {
    var n := Amount(o);
    var x := ReadR(s, value % 0x100);
    if o.byReg && n == 0 then o.c
    else if o.byReg && o.kind < 2 && n > 32 then 0
    else match o.kind
      case 0 =>
        if o.rs < 32 || o.imm != 0 then GetBit(h, x, 32 - n)
        else if o.byReg then GetBit(h, x, 0)
        else o.c
      case 1 => if o.rs < 32 || o.imm != 0 then GetBit(h, x, Before(n)) else GetBit(h, x, 31)
      case 2 =>
        if (o.byReg && n >= 32) || (!o.byReg && n == 0) then GetBit(h, x, 31)
        else GetBit(h, x, n - 1)
      case _ =>
        if Low5(o.rs) > 0 || o.imm != 0 then GetBit(h, x, Before(n))
        else if o.byReg then GetBit(h, x, 31)
        else GetBit(h, x, 0)
  }

  /** The shifter with the guards of lines 37, 49 and 75 asking for the form, the
      rotation amount taken modulo 32, and every tested bit taken from Rm before
      the shift. */
  function Repaired(h: Host, o: Operand): (Word, Flag) {
    var n := Amount(o);
    if o.byReg && n == 0 then (o.rm, o.c)
    else match o.kind
      case 0 =>
        if n == 0 then (o.rm, o.c)
        else if n < 32 then (Shl(h, o.rm, n), GetBit(h, o.rm, 32 - n))
        else (0, if n == 32 then GetBit(h, o.rm, 0) else 0)
      case 1 =>
        if 0 < n < 32 then (Shr(h, o.rm, n), GetBit(h, o.rm, n - 1))
        else (0, if n <= 32 then GetBit(h, o.rm, 31) else 0)
      case 2 =>
        if 0 < n < 32 then (Asr(h, o.rm, n), GetBit(h, o.rm, n - 1))
        else (if Bit31(o.rm) == 0 then 0 else 0xFFFF_FFFF, GetBit(h, o.rm, 31))
      case _ =>
        if n == 0 then (Rrx(o.rm, o.c), GetBit(h, o.rm, 0))
        else if Low5(n) == 0 then (o.rm, GetBit(h, o.rm, 31))
        else (Ror(h, o.rm, Low5(n)), GetBit(h, o.rm, Low5(n) - 1))
  }

  function Shifted(b: Build, s: State, o: Operand): (Word, Flag) {
    if b.shifter then Repaired(b.host, o)
    else
      var value := WrittenValue(b.host, s, o);
      (value, WrittenCarry(b.host, s, o, value))
  }

  /** The register a tested bit comes from. */
  method BitSource(p: ArmCore, before: Word, after: Word) returns (x: Word)
    requires p.Valid()
    ensures x == if p.build.shifter then before else ReadR(p.Snapshot(), after % 0x100)
  {
    if p.build.shifter {
      x := before;
    } else {
      x := p.ReadRegister(after % 0x100);
    }
  }

  lemma ShlByZero(h: Host, x: Word)
    ensures Shl(h, x, 0) == x && Shr(h, x, 0) == x
  {
    assert Pow2(0) == 1;
  }

  /** shift: the cases before the switch, then the switch. */
  method Shift(p: ArmCore, instruction: Word) returns (offset: Word, carry: Flag)
    requires p.Valid()
    ensures (offset, carry) == Shifted(p.build, p.Snapshot(), OperandOf(p.Snapshot(), instruction))
  {
    var rm := p.ReadRegister(Rm(instruction));
    var val_reg := p.ReadRegister(Rs(instruction));
    var cpsr := p.ReadCpsr();
    var o := Operand(ShiftKind(instruction), Bit4(instruction) == 1, rm,
                     val_reg % 0x100, ShiftImm(instruction), CFlag(cpsr));
    if o.byReg && o.rs == 0 {
      offset, carry := rm, CFlag(cpsr);
    } else if o.byReg && o.kind < 2 && o.rs > 32 {
      offset, carry := 0, 0;
    } else {
      match o.kind
      case 0 => offset, carry := CaseLsl(p, o);
      case 1 => offset, carry := CaseLsr(p, o);
      case 2 => offset, carry := CaseAsr(p, o);
      case _ => offset, carry := CaseRor(p, o);
    }
  }

  /** The test of lines 37, 49 and 75: whether the amount is used. */
  predicate UsesAmount(b: Build, o: Operand, small: bool) {
    if b.shifter then (if o.byReg then small else o.imm != 0) else small || o.imm != 0
  }

  /** The early cases of shift are past, and the fields are in their ranges. */
  predicate InSwitch(o: Operand) {
    o.imm < 32 && !(o.byReg && (o.rs == 0 || (o.kind < 2 && o.rs > 32)))
  }

  method CaseLsl(p: ArmCore, o: Operand) returns (offset: Word, carry: Flag)
    requires p.Valid() && InSwitch(o) && o.kind == 0
    ensures (offset, carry) == Shifted(p.build, p.Snapshot(), o)
  {
    var h := p.build.host;
    ShlByZero(h, o.rm);
    hide Shl, GetBit, ReadR;
    offset, carry := o.rm, 0;
    if UsesAmount(p.build, o, o.rs < 32) {
      var valeur := if o.byReg then o.rs else o.imm;
      offset := Shl(h, offset, valeur);
      var x := BitSource(p, o.rm, offset);
      carry := GetBit(h, x, 32 - valeur);
    } else if o.byReg && o.rs == 32 {
      offset := 0;
      var x := BitSource(p, o.rm, offset);
      carry := GetBit(h, x, 0);
    } else if !o.byReg {
      carry := o.c;
    }
  }

  method CaseLsr(p: ArmCore, o: Operand) returns (offset: Word, carry: Flag)
    requires p.Valid() && InSwitch(o) && o.kind == 1
    ensures (offset, carry) == Shifted(p.build, p.Snapshot(), o)
  {
    var h := p.build.host;
    hide Shr, GetBit, ReadR;
    offset, carry := o.rm, 0;
    if UsesAmount(p.build, o, o.rs < 32) {
      var valeur := if o.byReg then o.rs else o.imm;
      offset := Shr(h, offset, valeur);
      var x := BitSource(p, o.rm, offset);
      carry := GetBit(h, x, Before(valeur));
    } else if (o.byReg && o.rs == 32) || (!o.byReg && o.imm == 0) {
      offset := 0;
      var x := BitSource(p, o.rm, offset);
      carry := GetBit(h, x, 31);
    }
  }

  method CaseAsr(p: ArmCore, o: Operand) returns (offset: Word, carry: Flag)
    requires p.Valid() && InSwitch(o) && o.kind == 2
    ensures (offset, carry) == Shifted(p.build, p.Snapshot(), o)
  {
    var h := p.build.host;
    hide Asr, GetBit, Bit31, ReadR;
    offset, carry := o.rm, 0;
    if o.byReg && o.rs < 32 {
      offset := Asr(h, offset, o.rs);
      var x := BitSource(p, o.rm, offset);
      carry := GetBit(h, x, o.rs as int - 1);
    } else if (o.byReg && o.rs >= 32) || (!o.byReg && o.imm == 0) {
      var x := BitSource(p, o.rm, offset);
      if Bit31(x) == 0 {
        offset := 0;
      } else {
        offset := 0xFFFF_FFFF;
      }
      x := BitSource(p, o.rm, offset);
      carry := GetBit(h, x, 31);
    } else if !o.byReg && o.imm != 0 {
      offset := Asr(h, offset, o.imm);
      var x := BitSource(p, o.rm, offset);
      carry := GetBit(h, x, o.imm - 1);
    }
  }

  method CaseRor(p: ArmCore, o: Operand) returns (offset: Word, carry: Flag)
    requires p.Valid() && InSwitch(o) && o.kind >= 3
    ensures (offset, carry) == Shifted(p.build, p.Snapshot(), o)
  {
    var h, repaired := p.build.host, p.build.shifter;
    hide Ror, Rrx, GetBit, ReadR, Low5;
    offset, carry := o.rm, 0;
    if UsesAmount(p.build, o, Low5(o.rs) > 0) {
      var valeur := if o.byReg then (if repaired then Low5(o.rs) else o.rs) else o.imm;
      offset := Ror(h, offset, valeur);
      var x := BitSource(p, o.rm, offset);
      carry := GetBit(h, x, Before(valeur));
    } else if o.byReg && Low5(o.rs) == 0 {
      var x := BitSource(p, o.rm, offset);
      carry := GetBit(h, x, 31);
    } else if !o.byReg && o.imm == 0 {
      offset := Rrx(offset, o.c);
      var x := BitSource(p, o.rm, offset);
      carry := GetBit(h, x, 0);
    }
  }
}
