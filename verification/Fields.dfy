/** The fields of an instruction word, as get_bit and get_bits pick them. */
module Fields {
  import opened Words

  function Cond(ins: Word): nat { ins / 0x1000_0000 }
  function TypeOp(ins: Word): nat { ins / 0x200_0000 % 8 }
  function Bit25(ins: Word): Flag { ins / 0x200_0000 % 2 }
  function Bit24(ins: Word): Flag { ins / 0x100_0000 % 2 }
  function Bit23(ins: Word): Flag { ins / 0x80_0000 % 2 }
  function Bit22(ins: Word): Flag { ins / 0x40_0000 % 2 }
  function Bit21(ins: Word): Flag { ins / 0x20_0000 % 2 }
  function Bit20(ins: Word): Flag { ins / 0x10_0000 % 2 }
  function Bit7(ins: Word): Flag { ins / 0x80 % 2 }
  function Bit6(ins: Word): Flag { ins / 0x40 % 2 }
  function Bit5(ins: Word): Flag { ins / 0x20 % 2 }
  function Bit4(ins: Word): Flag { ins / 0x10 % 2 }
  function Opcode(ins: Word): nat { ins / 0x20_0000 % 16 }
  function Rn(ins: Word): Byte { ins / 0x1_0000 % 16 }
  function Rd(ins: Word): Byte { ins / 0x1000 % 16 }
  function Rs(ins: Word): Byte { ins / 0x100 % 16 }
  function Rm(ins: Word): Byte { ins % 16 }
  function ShiftKind(ins: Word): nat { ins / 0x20 % 4 }
  function ShiftImm(ins: Word): nat { ins / 0x80 % 32 }
  function Imm8(ins: Word): Word { ins % 0x100 }
  function Imm12(ins: Word): Word { ins % 0x1000 }
  function RegisterList(ins: Word): nat { ins % 0x1_0000 }
  function Offset24(ins: Word): Word { ins % 0x100_0000 }
}
