/** arm_core.c: the machine state and the accesses the instructions make. */
module Core {
  import opened Words
  import opened Builds
  import opened Registers
  import opened Memory

  /** Exited: the program asked for the end of the simulation. Overrun: an access
      left the memory array, after which C promises nothing. */
  datatype Stop = Running | Exited | Overrun

  datatype State = State(regs: Regs, mem: Mem, stop: Stop)

  datatype Peeked = Value(value: Word) | Denied | Beyond

  function Cpsr(s: State): Word {
    s.regs[CPSR]
  }

  function ModeOf(s: State): nat {
    Mode(s.regs)
  }

  function NFlag(cpsr: Word): Flag { cpsr / 0x8000_0000 }
  function ZFlag(cpsr: Word): Flag { cpsr / 0x4000_0000 % 2 }
  function CFlag(cpsr: Word): Flag { cpsr / 0x2000_0000 % 2 }
  function VFlag(cpsr: Word): Flag { cpsr / 0x1000_0000 % 2 }

  datatype Flags = Flags(n: Flag, z: Flag, c: Flag, v: Flag)

  function FlagsOf(cpsr: Word): Flags {
    Flags(NFlag(cpsr), ZFlag(cpsr), CFlag(cpsr), VFlag(cpsr))
  }

  /** What reading register 15 yields: the stored value plus 4 with bit 1 cleared,
      that is, the instruction's address plus 8. */
  function PcSeen(pc: Word): Word {
    var v := Trunc(pc + 4);
    v - v / 2 % 2 * 2
  }

  function ReadR(s: State, reg: nat): Word {
    if reg == PC then PcSeen(Read(s.regs, reg)) else Read(s.regs, reg)
  }

  function ReadUsrR(s: State, reg: nat): Word {
    if reg == PC then PcSeen(ReadUsr(s.regs, reg)) else ReadUsr(s.regs, reg)
  }

  function WriteR(b: Build, s: State, reg: nat, value: Word): State {
    s.(regs := Write(b.loneBank, s.regs, reg, value))
  }

  function WithCpsr(s: State, cpsr: Word): State {
    s.(regs := s.regs[CPSR := cpsr])
  }

  function Peek(s: State, a: Word, w: Width): Peeked {
    if Refused(s.mem, a, w) then Denied
    else if Overruns(s.mem, a, w) then Beyond
    else Value(Load(s.mem, a, w))
  }

  function Poke(s: State, a: Word, w: Width, v: Word): State {
    if Refused(s.mem, a, w) then s
    else if Overruns(s.mem, a, w) then s.(stop := Overrun)
    else s.(mem := Store(s.mem, a, w, v))
  }

  /** The address the next instruction is fetched from. */
  function FetchAddress(s: State): Word {
    Trunc(ReadR(s, PC) - 4)
  }

  class ArmCore {
    const reg: RegisterFile
    const mem: ByteMemory
    const build: Build
    var stop: Stop

    ghost predicate Valid() {
      && reg.Valid()
      && reg.regs as object != mem.adresses
      && reg.loneBank == build.loneBank
    }

    ghost function Snapshot(): State
      requires Valid()
      reads this, reg.regs, mem.adresses
    {
      State(reg.Value(), mem.Value(), stop)
    }

    /** arm_create, after which arm_exception(RESET) sets SVC mode. */
    constructor (memory: ByteMemory, build: Build)
      ensures Valid() && fresh(reg.regs) && mem == memory && this.build == build
      ensures ModeOf(Snapshot()) == SVC && stop == Running
      ensures Snapshot().mem == memory.Value()
    {
      var file := new RegisterFile(build.loneBank);
      reg, mem, this.build, stop := file, memory, build, Running;
      new;
      reg.WriteCpsr(0x1d3);
      reg.WriteUsrRegister(PC, 0);
    }

    method ReadRegister(reg: Byte) returns (value: Word)
      requires Valid()
      ensures value == ReadR(Snapshot(), reg)
    {
      value := this.reg.ReadRegister(reg);
      if reg == PC {
        value := Trunc(value + 4);
        value := value - value / 2 % 2 * 2;
      }
    }

    method ReadUsrRegister(reg: Byte) returns (value: Word)
      requires Valid()
      ensures value == ReadUsrR(Snapshot(), reg)
    {
      value := this.reg.ReadUsrRegister(reg);
      if reg == PC {
        value := Trunc(value + 4);
        value := value - value / 2 % 2 * 2;
      }
    }

    method ReadCpsr() returns (value: Word)
      requires Valid()
      ensures value == Cpsr(Snapshot())
    {
      value := reg.regs[CPSR];
    }

    method WriteRegister(reg: Byte, value: Word)
      requires Valid()
      modifies this.reg.regs
      ensures Snapshot() == WriteR(build, old(Snapshot()), reg, value)
    {
      this.reg.WriteRegister(reg, value);
    }

    method WriteUsrRegister(reg: Byte, value: Word)
      requires Valid()
      modifies this.reg.regs
      ensures Snapshot() == WriteR(build, old(Snapshot()), reg, value)
    {
      this.reg.WriteUsrRegister(reg, value);
    }

    method WriteCpsr(value: Word)
      requires Valid()
      modifies reg.regs
      ensures Snapshot() == WithCpsr(old(Snapshot()), value)
    {
      reg.WriteCpsr(value);
    }

    /** The four data accesses and the fetch. A status other than 0 comes with no
        value; an access past the array stops the machine. */
    method ReadByte(address: Word) returns (status: int, value: Byte)
      requires Valid()
      modifies this
      ensures status == 0 <==> Peek(old(Snapshot()), address, B1).Value?
      ensures status == 0 ==> value == Peek(old(Snapshot()), address, B1).value
      ensures Snapshot() ==
        if Peek(old(Snapshot()), address, B1).Beyond? then old(Snapshot()).(stop := Overrun) else old(Snapshot())
    {
      if address / 4 <= mem.adresses.Length < address + 1 {
        stop := Overrun;
        return -1, 0;
      }
      status, value := mem.ReadByte(address);
    }

    method ReadHalf(address: Word) returns (status: int, value: nat)
      requires Valid()
      modifies this
      ensures status == 0 <==> Peek(old(Snapshot()), address, H2).Value?
      ensures status == 0 ==> value == Peek(old(Snapshot()), address, H2).value
      ensures Snapshot() ==
        if Peek(old(Snapshot()), address, H2).Beyond? then old(Snapshot()).(stop := Overrun) else old(Snapshot())
    {
      if address / 4 <= mem.adresses.Length < address + 2 && address % 4 <= 2 {
        stop := Overrun;
        return -1, 0;
      }
      status, value := mem.ReadHalf(address);
    }

    method ReadWord(address: Word) returns (status: int, value: Word)
      requires Valid()
      modifies this
      ensures status == 0 <==> Peek(old(Snapshot()), address, W4).Value?
      ensures status == 0 ==> value == Peek(old(Snapshot()), address, W4).value
      ensures Snapshot() ==
        if Peek(old(Snapshot()), address, W4).Beyond? then old(Snapshot()).(stop := Overrun) else old(Snapshot())
    {
      if address / 4 <= mem.adresses.Length < address + 4 && address % 4 == 0 {
        stop := Overrun;
        return -1, 0;
      }
      status, value := mem.ReadWord(address);
    }

    method WriteByte(address: Word, value: Byte) returns (status: int)
      requires Valid()
      modifies this, mem.adresses
      ensures status == 0 <==> InRange(old(Snapshot()).mem, address, B1)
      ensures Snapshot() == Poke(old(Snapshot()), address, B1, value)
    {
      if address / 4 <= mem.adresses.Length < address + 1 {
        stop := Overrun;
        return -1;
      }
      status := mem.WriteByte(address, value);
    }

    method WriteHalf(address: Word, value: nat) returns (status: int)
      requires Valid() && value < 0x1_0000
      modifies this, mem.adresses
      ensures status == 0 <==> InRange(old(Snapshot()).mem, address, H2)
      ensures Snapshot() == Poke(old(Snapshot()), address, H2, value)
    {
      if address / 4 <= mem.adresses.Length < address + 2 && address % 4 <= 2 {
        stop := Overrun;
        return -1;
      }
      status := mem.WriteHalf(address, value);
    }

    method WriteWord(address: Word, value: Word) returns (status: int)
      requires Valid()
      modifies this, mem.adresses
      ensures status == 0 <==> InRange(old(Snapshot()).mem, address, W4)
      ensures Snapshot() == Poke(old(Snapshot()), address, W4, value)
    {
      if address / 4 <= mem.adresses.Length < address + 4 && address % 4 == 0 {
        stop := Overrun;
        return -1;
      }
      status := mem.WriteWord(address, value);
    }

    /** arm_fetch: the program counter moves on even when the read is refused. */
    method Fetch() returns (status: int, instruction: Word)
      requires Valid() && stop == Running
      modifies this, reg.regs
      ensures var s := old(Snapshot());
        var a := FetchAddress(s);
        && (status == 0 <==> Peek(s, a, W4).Value?)
        && (status == 0 ==> instruction == Peek(s, a, W4).value)
        && Snapshot() == if Peek(s, a, W4).Beyond? then s.(stop := Overrun)
                      else WriteR(build, s, PC, Trunc(a + 4))
    {
      var pc := ReadRegister(PC);
      var address := Trunc(pc as int - 4);
      status, instruction := ReadWord(address);
      if stop == Overrun {
        return;
      }
      WriteRegister(PC, Trunc(address as int + 4));
    }
  }
}
