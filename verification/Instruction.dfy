/** arm_instruction.c: fetch, condition and dispatch. */
module Instruction {
  import opened Words
  import opened Builds
  import opened Registers
  import opened Memory
  import opened Core
  import opened Fields
  import opened Decode
  import opened DataProcessing
  import opened Branch
  import opened LoadStore
  import opened BlockTransfer

  /** arm_execute_instruction after the fetch. The coprocessor transfers do nothing
      and fall through to the SWI test (line 77). */
  function Dispatched(b: Build, s: State, ins: Word): State {
    if !Condition(Cpsr(s), Cond(ins)) then s
    else match TypeOp(ins)
      case 0 => if Bit4(ins) == 0 || Bit7(ins) == 0 then Processed(b, s, ins) else Miscellaneous(b, s, ins)
      case 1 => Processed(b, s, ins)
      case 2 => WordByte(b, s, ins)
      case 3 => WordByte(b, s, ins)
      case 4 => Multiple(b, s, ins)
      case 5 => Branched(b, s, ins)
      case _ => Swi(s, ins)
  }

  /** The state after a fetch from address a. */
  function AfterFetch(b: Build, s: State, a: Word): State {
    WriteR(b, s, PC, Trunc(a + 4))
  }

  /** arm_step. A refused fetch executes nothing but moves the PC. */
  function Step(b: Build, s: State): State {
    if s.stop != Running then s
    else match Peek(s, FetchAddress(s), W4)
      case Beyond => s.(stop := Overrun)
      case Denied => AfterFetch(b, s, FetchAddress(s))
      case Value(ins) => Dispatched(b, AfterFetch(b, s, FetchAddress(s)), ins)
  }

  /** n steps. */
  function Steps(b: Build, s: State, n: nat): State
    decreases n
  {
    if n == 0 then s else Steps(b, Step(b, s), n - 1)
  }

  lemma {:induction false} StepsAdd(b: Build, s: State, m: nat, n: nat)
    ensures Steps(b, s, m + n) == Steps(b, Steps(b, s, m), n)
    decreases m
  {
    if m > 0 {
      StepsAdd(b, Step(b, s), m - 1, n);
    }
    hide Step;
  }

  method ArmLoadStore(p: ArmCore, ins: Word)
    requires p.Valid() && (TypeOp(ins) in {2, 3} || (TypeOp(ins) == 0 && Bit7(ins) == 1 && Bit4(ins) == 1))
    modifies p, p.reg.regs, p.mem.adresses
    ensures p.Snapshot() ==
      if TypeOp(ins) == 0 then Miscellaneous(p.build, old(p.Snapshot()), ins)
      else WordByte(p.build, old(p.Snapshot()), ins)
  {
    hide Bit7, Bit4, WordByte, Miscellaneous;
    if ins / 0x400_0000 % 4 == 1 {
      WordByteLoadStore(p, ins);
    } else if TypeOp(ins) == 0 && Bit7(ins) == 1 && Bit4(ins) == 1 {
      MiscellaneousLoadStore(p, ins);
    }
  }

  method ArmExecuteInstruction(p: ArmCore) returns (result: int)
    requires p.Valid() && p.stop == Running
    modifies p, p.reg.regs, p.mem.adresses
    ensures p.Snapshot() == Step(p.build, old(p.Snapshot()))
    ensures result == 0
  {
    hide Peek, FetchAddress, Write, Condition, Cond, TypeOp, Bit4, Bit7, Trunc;
    hide Processed, Miscellaneous, WordByte, Multiple, Branched, Swi;
    result := 0;
    var status, instruction := p.Fetch();
    if status != 0 {
      return;
    }
    var cpsr := p.ReadCpsr();
    if Condition(cpsr, Cond(instruction)) {
      match TypeOp(instruction)
      case 0 =>
        if Bit4(instruction) == 0 || Bit7(instruction) == 0 {
          ArmDataProcessing(p, instruction);
        } else {
          ArmLoadStore(p, instruction);
        }
      case 1 => ArmDataProcessing(p, instruction);
      case 2 => ArmLoadStore(p, instruction);
      case 3 => ArmLoadStore(p, instruction);
      case 4 => LoadStoreMultiple(p, instruction);
      case 5 => var _ := ArmBranch(p, instruction);
      case _ => ArmCoprocessorOthersSwi(p, instruction);
    }
  }

  /** arm_step: the result is always 0, so no exception is ever raised from it. */
  method ArmStep(p: ArmCore) returns (result: int)
    requires p.Valid() && p.stop == Running
    modifies p, p.reg.regs, p.mem.adresses
    ensures p.Snapshot() == Step(p.build, old(p.Snapshot()))
    ensures result == 0
  {
    result := ArmExecuteInstruction(p);
  }
}
