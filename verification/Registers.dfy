/** registers.c: thirty-seven cells, banked by the mode bits of the CPSR. */
module Registers {
  import opened Words

  const USR := 0x10
  const FIQ := 0x11
  const IRQ := 0x12
  const SVC := 0x13
  const ABT := 0x17
  const UND := 0x1b
  const SYS := 0x1f

  const PC := 15
  const CPSR := 16
  const SPSR := 17
  const R13_SVC := 17
  const R8_FIQ := 29

  type Regs = s: seq<Word> | |s| == 37 witness seq(37, _ => 0)

  function Mode(regs: Regs): nat {
    regs[CPSR] % 32
  }

  predicate Known(mode: nat) {
    mode in {USR, FIQ, IRQ, SVC, ABT, UND, SYS}
  }

  predicate HasSpsr(mode: nat) {
    Known(mode) && mode != USR && mode != SYS
  }

  /** The cell of R13 in each known mode; R14 and the SPSR follow it. */
  function R13Cell(mode: nat): (cell: nat)
    requires Known(mode)
    ensures cell in {13, 17, 20, 23, 26, 34}
  {
    if mode == FIQ then 34
    else if mode == IRQ then 26
    else if mode == SVC then 17
    else if mode == ABT then 20
    else if mode == UND then 23
    else 13
  }

  /** The cell a register number reaches, or -1 for none. */
  function Cell(mode: nat, reg: nat): (cell: int)
    ensures -1 <= cell < 37 && cell != CPSR
  {
    if reg <= 7 || reg == PC then reg
    else if reg <= 12 then (if mode == FIQ then reg - 8 + R8_FIQ else reg)
    else if reg <= 14 && Known(mode) then R13Cell(mode) + (reg - 13)
    else if reg == SPSR && HasSpsr(mode) then R13Cell(mode) + 2
    else -1
  }

  /** Line 146: an SVC cell is also reached from USR and SYS. */
  predicate Stray(mode: nat, reg: nat) {
    (mode == USR || mode == SYS) && (reg == 13 || reg == 14 || reg == SPSR)
  }

  function StrayCell(reg: nat): (cell: nat)
    ensures cell == 17 || cell == 18 || cell == 19
  {
    R13_SVC + (if reg == 13 then 0 else if reg == 14 then 1 else 2)
  }

  function Fetched(regs: Regs, reg: nat): Word {
    var cell := Cell(Mode(regs), reg);
    if cell >= 0 then regs[cell]
    else if !Known(Mode(regs)) && reg in {13, 14, SPSR} then 0xFFFF_FFFF
    else 0
  }

  function Strayed(loneBank: bool, regs: Regs, reg: nat, value: Word): Regs {
    if !loneBank && Stray(Mode(regs), reg) then regs[StrayCell(reg) := value] else regs
  }

  function Stored(loneBank: bool, regs: Regs, reg: nat, value: Word): Regs {
    var cell := Cell(Mode(regs), reg);
    var regs' := Strayed(loneBank, regs, reg, value);
    if cell >= 0 then regs'[cell := value] else regs'
  }

  /** read_register and write_register: numbers above 15 are ignored. */
  function Read(regs: Regs, reg: nat): Word {
    if reg <= 15 then Fetched(regs, reg) else 0
  }

  function Write(loneBank: bool, regs: Regs, reg: nat, value: Word): Regs {
    if reg <= 15 then Stored(loneBank, regs, reg, value) else regs
  }

  /** read_usr_register bypasses the banking. */
  function ReadUsr(regs: Regs, reg: nat): Word {
    if reg <= 15 then regs[reg] else 0
  }

  /** read_spsr: line 102 drops the value it reads. */
  function ReadSpsr(regs: Regs): Word {
    0
  }

  function WriteSpsr(loneBank: bool, regs: Regs, value: Word): Regs {
    if HasSpsr(Mode(regs)) then Stored(loneBank, regs, SPSR, value) else regs
  }

  class RegisterFile {
    const regs: array<Word>
    const loneBank: bool

    ghost predicate Valid() {
      regs.Length == 37
    }

    ghost function Value(): Regs
      requires Valid()
      reads regs
    {
      regs[..]
    }

    constructor (loneBank: bool)
      ensures Valid() && fresh(regs) && this.loneBank == loneBank
    {
      regs := new Word[37](_ => 0);
      this.loneBank := loneBank;
    }

    method GetMode() returns (mode: nat)
      requires Valid()
      ensures mode == Mode(Value())
    {
      mode := regs[CPSR] % 32;
    }

    method CurrentModeHasSpsr() returns (has: bool)
      requires Valid()
      ensures has == HasSpsr(Mode(Value()))
    {
      var mode := GetMode();
      has := mode == FIQ || mode == IRQ || mode == SVC || mode == ABT || mode == UND;
    }

    method Worker(cell: nat, value: Word, isRead: bool) returns (result: Word)
      requires Valid() && cell < 37
      modifies if isRead then {} else {regs}
      ensures isRead ==> result == Value()[cell]
      ensures !isRead ==> Value() == old(Value())[cell := value]
    {
      if isRead {
        result := regs[cell];
      } else {
        regs[cell] := value;
        result := 1;
      }
    }

    /** action_register_mode. */
    method Action(reg: Byte, value: Word, isRead: bool) returns (result: Word)
      requires Valid()
      modifies if isRead then {} else {regs}
      ensures isRead ==> result == Fetched(Value(), reg)
      ensures !isRead ==> Value() == Stored(loneBank, old(Value()), reg, value)
    {
      var mode := GetMode();
      if reg <= 7 || (mode != FIQ && reg <= 12) {
        result := Worker(reg, value, isRead);
      } else if reg <= 12 && mode == FIQ {
        result := Worker(reg % 8 + R8_FIQ, value, isRead);
      } else if reg == 13 || reg == 14 || reg == SPSR {
        var i := if reg == 13 then 0 else if reg == 14 then 1 else 2;
        if mode == USR || mode == SYS {
          if !loneBank {
            result := Worker(R13_SVC + i, value, isRead);
          }
          if reg != SPSR {
            result := Worker(13 + i, value, isRead);
          } else {
            result := 0;
          }
        } else if mode in {FIQ, IRQ, SVC, ABT, UND} {
          var r13 := if mode == FIQ then 34 else if mode == IRQ then 26
                     else if mode == SVC then 17 else if mode == ABT then 20 else 23;
          result := Worker(r13 + i, value, isRead);
        } else {
          result := 0xFFFF_FFFF;
        }
      } else if reg == PC {
        result := Worker(reg, value, isRead);
      } else {
        result := 0;
      }
    }

    method ReadRegister(reg: Byte) returns (value: Word)
      requires Valid()
      ensures value == Read(Value(), reg)
    {
      if reg > 15 {
        return 0;
      }
      value := Action(reg, 0, true);
    }

    method WriteRegister(reg: Byte, value: Word)
      requires Valid()
      modifies regs
      ensures Value() == Write(loneBank, old(Value()), reg, value)
    {
      if reg <= 15 {
        var _ := Action(reg, value, false);
      }
    }

    method ReadUsrRegister(reg: Byte) returns (value: Word)
      requires Valid()
      ensures value == ReadUsr(Value(), reg)
    {
      if reg > 15 {
        return 0;
      }
      value := regs[reg];
    }

    /** write_usr_register writes through the current mode (line 115). */
    method WriteUsrRegister(reg: Byte, value: Word)
      requires Valid()
      modifies regs
      ensures Value() == Write(loneBank, old(Value()), reg, value)
    {
      if reg <= 15 {
        WriteRegister(reg, value);
      }
    }

    method ReadSpsrRegister() returns (value: Word)
      requires Valid()
      ensures value == ReadSpsr(Value())
    {
      value := 0;
      var has := CurrentModeHasSpsr();
      if has {
        var _ := Action(SPSR, 0, true);
      }
    }

    method WriteSpsrRegister(value: Word)
      requires Valid()
      modifies regs
      ensures Value() == WriteSpsr(loneBank, old(Value()), value)
    {
      var has := CurrentModeHasSpsr();
      if has {
        var _ := Action(SPSR, value, false);
      }
    }

    method WriteCpsr(value: Word)
      requires Valid()
      modifies regs
      ensures Value() == old(Value())[CPSR := value]
    {
      regs[CPSR] := value;
    }
  }
}
