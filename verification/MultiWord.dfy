/** Sums and differences of numbers many words long, by runs of ADDS then ADCS or
    SUBS then SBCS with anything that keeps C in between; module LongSums executes
    them one after the other. */
module MultiWord {
  import opened Words
  import opened Builds
  import opened Core
  import opened Fields
  import opened DataProcessing
  import opened FlagLaws

  /** One instruction of a run and the state it is executed in. */
  datatype Link = Link(s: State, ins: Word)

  /** A run, least significant word first. */
  datatype Run = Last(link: Link) | More(link: Link, rest: Run)

  function After(b: Build, l: Link): State {
    Executed(b, l.s, l.ins)
  }

  function CarryIn(l: Link): Flag {
    CFlag(Cpsr(l.s))
  }

  function CarryOut(b: Build, l: Link): Flag {
    CFlag(Cpsr(After(b, l)))
  }

  predicate Sets(l: Link, op: nat) {
    ArithSets(l.s, l.ins) && Opcode(l.ins) == op
  }

  /** Every link after the first is ADCS (or SBCS) and takes in the C left before it. */
  ghost predicate Linked(b: Build, r: Run, op: nat) {
    r.More? ==> Sets(r.rest.link, op) && CarryIn(r.rest.link) == CarryOut(b, r.link) && Linked(b, r.rest, op)
  }

  /** The run starts with ADDS or ADCS, and with SUBS or SBCS. */
  ghost predicate Additions(b: Build, r: Run) {
    (Sets(r.link, 4) || Sets(r.link, 5)) && Linked(b, r, 5)
  }

  ghost predicate Subtractions(b: Build, r: Run) {
    (Sets(r.link, 2) || Sets(r.link, 6)) && Linked(b, r, 6)
  }

  /** The C taken in: ADDS adds none and SUBS borrows none. */
  function TakenIn(l: Link): Flag {
    if Opcode(l.ins) == 4 then 0 else if Opcode(l.ins) == 2 then 1 else CarryIn(l)
  }

  /** The C left at the end. */
  function Final(b: Build, r: Run): Flag {
    match r case Last(l) => CarryOut(b, l) case More(l, rest) => Final(b, rest)
  }

  /** What 1 is worth past the last word. */
  function Radix(r: Run): nat {
    match r case Last(_) => 0x1_0000_0000 case More(_, rest) => 0x1_0000_0000 * Radix(rest)
  }

  /** The numbers the operands and the results spell. */
  function Augend(r: Run): nat {
    FirstOf(r.link.s, r.link.ins) + (if r.More? then 0x1_0000_0000 * Augend(r.rest) else 0)
  }

  function Addend(b: Build, r: Run): nat {
    SecondOf(b, r.link.s, r.link.ins) + (if r.More? then 0x1_0000_0000 * Addend(b, r.rest) else 0)
  }

  function Result(b: Build, r: Run): nat {
    ReadR(After(b, r.link), Rd(r.link.ins)) + (if r.More? then 0x1_0000_0000 * Result(b, r.rest) else 0)
  }

  /** The C of the exact result of a link. */
  function ExactCarry(b: Build, l: Link): Flag {
    ManualC(Opcode(l.ins), FirstOf(l.s, l.ins), SecondOf(b, l.s, l.ins), CarryIn(l))
  }

  predicate AllExact(b: Build, r: Run) {
    CarryOut(b, r.link) == ExactCarry(b, r.link) && (r.More? ==> AllExact(b, r.rest))
  }

  // ---------- one link ----------

  lemma ExactSplits(op: nat, x: Word, y: Word, c: Flag)
    requires op in {2, 4, 5, 6}
    ensures var e, t := Exact(op, x, y, c), ManualC(op, x, y, c);
      e == Trunc(e) + (if Adds(op) then (if t == 1 then 0x1_0000_0000 else 0)
                       else if t == 0 then -0x1_0000_0000 else 0)
  {
  }

  lemma ResultRead(b: Build, l: Link)
    requires ArithSets(l.s, l.ins) && !IsTest(Opcode(l.ins))
    ensures ReadR(After(b, l), Rd(l.ins)) ==
      Trunc(Exact(Opcode(l.ins), FirstOf(l.s, l.ins), SecondOf(b, l.s, l.ins), CarryIn(l)))
  {
    FlagsLeft(b, l.s, l.ins);
    ResultIsExact(Opcode(l.ins), FirstOf(l.s, l.ins), SecondOf(b, l.s, l.ins), CarryIn(l));
    hide FirstOf, SecondOf, Executed, Leaves, Alu, CFlag, Exact, Opcode, Trunc;
  }

  /** One addition: the exact sum is the result and the exact carry. */
  lemma AddLink(b: Build, l: Link)
    requires Sets(l, 4) || Sets(l, 5)
    ensures FirstOf(l.s, l.ins) + SecondOf(b, l.s, l.ins) + TakenIn(l)
      == ReadR(After(b, l), Rd(l.ins)) + (if ExactCarry(b, l) == 1 then 0x1_0000_0000 else 0)
  {
    ResultRead(b, l);
    ExactSplits(Opcode(l.ins), FirstOf(l.s, l.ins), SecondOf(b, l.s, l.ins), CarryIn(l));
    hide FirstOf, SecondOf, After, CFlag, ArithSets, Trunc, ManualC, Opcode;
  }

  lemma SubLink(b: Build, l: Link)
    requires Sets(l, 2) || Sets(l, 6)
    ensures FirstOf(l.s, l.ins) - SecondOf(b, l.s, l.ins) - (1 - TakenIn(l))
      == ReadR(After(b, l), Rd(l.ins)) - (if ExactCarry(b, l) == 0 then 0x1_0000_0000 else 0)
  {
    ResultRead(b, l);
    ExactSplits(Opcode(l.ins), FirstOf(l.s, l.ins), SecondOf(b, l.s, l.ins), CarryIn(l));
    hide FirstOf, SecondOf, After, CFlag, ArithSets, Trunc, ManualC, Opcode;
  }

  // ---------- whole runs ----------

  /** How far the exact sum is from what the run leaves in the results and in C. */
  function SumError(b: Build, r: Run): int {
    Augend(r) + Addend(b, r) + TakenIn(r.link) - Result(b, r)
    - (if Final(b, r) == 1 then Radix(r) else 0)
  }

  function DifferenceError(b: Build, r: Run): int {
    Augend(r) - Addend(b, r) - (1 - TakenIn(r.link)) - Result(b, r)
    + (if Final(b, r) == 0 then Radix(r) else 0)
  }

  function CarryError(b: Build, l: Link): int {
    ExactCarry(b, l) as int - CarryOut(b, l)
  }

  lemma SumErrorStep(b: Build, r: Run)
    requires Additions(b, r)
    ensures r.Last? ==> SumError(b, r) == 0x1_0000_0000 * CarryError(b, r.link)
    ensures r.More? ==> SumError(b, r) == 0x1_0000_0000 * (CarryError(b, r.link) + SumError(b, r.rest))
  {
    AddLink(b, r.link);
    hide FirstOf, SecondOf, ExactCarry, CarryOut, CarryIn, After, ReadR, Opcode, ArithSets, Linked;
  }

  lemma DifferenceErrorStep(b: Build, r: Run)
    requires Subtractions(b, r)
    ensures r.Last? ==> DifferenceError(b, r) == 0x1_0000_0000 * CarryError(b, r.link)
    ensures r.More? ==>
      DifferenceError(b, r) == 0x1_0000_0000 * (CarryError(b, r.link) + DifferenceError(b, r.rest))
  {
    SubLink(b, r.link);
    hide FirstOf, SecondOf, ExactCarry, CarryOut, CarryIn, After, ReadR, Opcode, ArithSets, Linked;
  }

  lemma NoCancelling(d: int, e: int)
    requires -1 <= d <= 1 && e % 0x1_0000_0000 == 0
    ensures 0x1_0000_0000 * (d + e) == 0 <==> d == 0 && e == 0
    ensures 0x1_0000_0000 * (d + e) % 0x1_0000_0000 == 0
  {
  }

  /** A run of ADDS and ADCS leaves the exact sum in the result words and C exactly
      when every carry on the way is that of its exact result: wrong carries cannot
      cancel, as the errors they cause are at different words. */
  lemma {:induction false} SumExact(b: Build, r: Run)
    requires Additions(b, r)
    ensures SumError(b, r) % 0x1_0000_0000 == 0
    ensures SumError(b, r) == 0 <==> AllExact(b, r)
  {
    hide SumError, CarryOut, ExactCarry, ArithSets, CarryIn, Opcode;
    SumErrorStep(b, r);
    match r
    case Last(l) =>
      NoCancelling(CarryError(b, l), 0);
    case More(l, rest) =>
      SumExact(b, rest);
      NoCancelling(CarryError(b, l), SumError(b, rest));
      hide Additions;
  }

  lemma {:induction false} DifferenceExact(b: Build, r: Run)
    requires Subtractions(b, r)
    ensures DifferenceError(b, r) % 0x1_0000_0000 == 0
    ensures DifferenceError(b, r) == 0 <==> AllExact(b, r)
  {
    hide DifferenceError, CarryOut, ExactCarry, ArithSets, CarryIn, Opcode;
    DifferenceErrorStep(b, r);
    match r
    case Last(l) =>
      NoCancelling(CarryError(b, l), 0);
    case More(l, rest) =>
      DifferenceExact(b, rest);
      NoCancelling(CarryError(b, l), DifferenceError(b, rest));
      hide Subtractions;
  }

  lemma RepairedCarry(b: Build, l: Link)
    requires b.operandFlags && ArithSets(l.s, l.ins)
    ensures CarryOut(b, l) == ExactCarry(b, l)
  {
    RepairedFlagsExact(b, l.s, l.ins);
    FlagsFields(Cpsr(After(b, l)));
    hide ManualC, FirstOf, SecondOf, Executed, FlagsOf, CFlag, Overflows;
  }

  /** With the flag formulas repaired every carry is exact. */
  lemma {:induction false} RepairedCarries(b: Build, r: Run, op: nat)
    requires b.operandFlags && ArithSets(r.link.s, r.link.ins) && Linked(b, r, op)
    ensures AllExact(b, r)
  {
    RepairedCarry(b, r.link);
    if r.More? {
      RepairedCarries(b, r.rest, op);
    }
    hide ArithSets, CarryOut, ExactCarry;
  }

  /** So the result words and C are the exact sum, and with SUBS and SBCS the exact
      difference, C clear standing for a borrow. */
  lemma RepairedSum(b: Build, r: Run)
    requires b.operandFlags && Additions(b, r)
    ensures Augend(r) + Addend(b, r) + TakenIn(r.link) ==
            Result(b, r) + (if Final(b, r) == 1 then Radix(r) else 0)
  {
    RepairedCarries(b, r, 5);
    SumExact(b, r);
    hide Augend, Addend, Result, Radix, Final, TakenIn, AllExact, Additions;
  }

  lemma RepairedDifference(b: Build, r: Run)
    requires b.operandFlags && Subtractions(b, r)
    ensures Augend(r) - Addend(b, r) - (1 - TakenIn(r.link)) ==
            Result(b, r) - (if Final(b, r) == 0 then Radix(r) else 0)
  {
    RepairedCarries(b, r, 6);
    DifferenceExact(b, r);
    hide Augend, Addend, Result, Radix, Final, TakenIn, AllExact, Subtractions;
  }

  // ---------- as written ----------

  /** As written a link's carry is what the number of Rn and bits 11..0 of the
      instruction give. */
  lemma WrittenCarryOut(b: Build, l: Link)
    requires !b.operandFlags && ArithSets(l.s, l.ins)
    ensures CarryOut(b, l) == WrittenC(Opcode(l.ins), Rn(l.ins), Imm12(l.ins), CarryIn(l))
  {
    FlagsLeft(b, l.s, l.ins);
    WrittenFlagsClosed(Opcode(l.ins), Rn(l.ins), Imm12(l.ins), CarryIn(l));
    FlagsFields(Cpsr(After(b, l)));
    hide Executed, FlagsOf, CFlag, WrittenC, ResultOf, SecondOf, FirstOf, ArithFlags, SecondOperand, Bit31, VFlag;
  }

  /** Every link's fields carry or borrow by the written tests as its operands do
      exactly. */
  predicate FieldsExact(b: Build, r: Run) {
    && WrittenC(Opcode(r.link.ins), Rn(r.link.ins), Imm12(r.link.ins), CarryIn(r.link)) == ExactCarry(b, r.link)
    && (r.More? ==> FieldsExact(b, r.rest))
  }

  lemma {:induction false} FieldsDecide(b: Build, r: Run, op: nat)
    requires !b.operandFlags && ArithSets(r.link.s, r.link.ins) && Linked(b, r, op) && IsArith(op)
    ensures AllExact(b, r) <==> FieldsExact(b, r)
  {
    WrittenCarryOut(b, r.link);
    if r.More? {
      FieldsDecide(b, r.rest, op);
    }
    hide CarryOut, ExactCarry, WrittenC, SetsFlags;
  }

  /** As written a run is the exact sum, or difference, exactly under that condition. */
  lemma WrittenSumExact(b: Build, r: Run)
    requires !b.operandFlags && Additions(b, r)
    ensures SumError(b, r) == 0 <==> FieldsExact(b, r)
  {
    SumExact(b, r);
    FieldsDecide(b, r, 5);
    hide SumError, AllExact, FieldsExact, Linked;
  }

  lemma WrittenDifferenceExact(b: Build, r: Run)
    requires !b.operandFlags && Subtractions(b, r)
    ensures DifferenceError(b, r) == 0 <==> FieldsExact(b, r)
  {
    DifferenceExact(b, r);
    FieldsDecide(b, r, 6);
    hide DifferenceError, AllExact, FieldsExact, Linked;
  }
}
