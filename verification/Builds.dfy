/** Which program is modelled: the host C leaves undefined behaviour to, and the
    named repairs. With every repair off the model is the code as written. */
module Builds {
  import opened Words

  /** What the C standard does not say: the result of shifting a 32-bit value by
      a count outside 0..31, and the content of a local variable before its first
      assignment. Every theorem holds for every host. */
  datatype Host = Host(
    shl: (Word, int) -> Word,
    shr: (Word, int) -> Word,
    junk: Word)

  /** One flag per repair; each comment names the lines it changes. */
  datatype Build = Build(
    host: Host,
    loneBank: bool,       // registers.c:146: no SVC access from USR and SYS
    extendSign: bool,     // arm_branch_other.c:32: 24 to 30 bit sign extension
    shifter: bool,        // decode.c:37-83: branch guards, carry bit taken from Rm
    operandFlags: bool,   // arm_data_processing.c:111,148-149,184,213-247: flags from operand values
    baseValue: bool,      // arm_load_store.c:88-121: base value, U sense, writeback
    signedLoads: bool)    // arm_load_store.c:457,472: sign extension in 32 bits

  /** x << n */
  function Shl(h: Host, x: Word, n: int): Word {
    if 0 <= n < 32 then Trunc(x * Pow2(n)) else h.shl(x, n)
  }

  /** x >> n */
  function Shr(h: Host, x: Word, n: int): Word {
    if 0 <= n < 32 then DivisionBounds(x, Pow2(n)); x / Pow2(n) else h.shr(x, n)
  }

  /** get_bit on a word. */
  function GetBit(h: Host, x: Word, n: int): Flag {
    Shr(h, x, n) % 2
  }
}
