/** arm_branch_other.c: branches, and the end of the simulation by SWI. */
module Branch {
  import opened Words
  import opened Builds
  import opened Registers
  import opened Core
  import opened Fields

  /** signed_extend30. Line 32 writes the extension in hexadecimal. */
  function SignedExtend30(b: Build, ins: Word): Word {
    var offset := Offset24(ins);
    if Bit23(ins) == 0 then offset
    else if b.extendSign then Trunc(offset - 0x100_0000)
    else OrWord(Trunc(0xb11_1111 * 0x80_0000), offset)
  }

  /** arm_branch. */
  function Branched(b: Build, s: State, ins: Word): State {
    if Cond(ins) == 15 then s
    else
      var s1 := if Bit24(ins) == 1 then WriteR(b, s, 14, Trunc(ReadR(s, PC) - 4)) else s;
      WriteR(b, s1, PC, Trunc(ReadR(s1, PC) + 4 * SignedExtend30(b, ins)))
  }

  /** arm_coprocessor_others_swi: SWI 0x123456 ends the simulation. */
  function Swi(s: State, ins: Word): State {
    if Bit24(ins) == 1 && ins % 0x100_0000 == 0x12_3456 then s.(stop := Exited) else s
  }

  method ArmBranch(p: ArmCore, ins: Word) returns (status: int)
    requires p.Valid()
    modifies p.reg.regs
    ensures p.Snapshot() == Branched(p.build, old(p.Snapshot()), ins)
    ensures status == if Cond(ins) == 15 then -1 else 0
  {
    hide ReadR, SignedExtend30;
    if Cond(ins) != 0xF {
      if Bit24(ins) == 1 {
        var pc := p.ReadRegister(PC);
        p.WriteRegister(14, Trunc(pc as int - 4));
      }
      var pc := p.ReadRegister(PC);
      p.WriteRegister(PC, Trunc(pc as int + 4 * SignedExtend30(p.build, ins)));
      return 0;
    }
    return -1;
  }

  method ArmCoprocessorOthersSwi(p: ArmCore, ins: Word)
    requires p.Valid()
    modifies p
    ensures p.Snapshot() == Swi(old(p.Snapshot()), ins)
  {
    if Bit24(ins) == 1 {
      if ins % 0x100_0000 == 0x12_3456 {
        p.stop := Exited;
      }
    }
  }
}
