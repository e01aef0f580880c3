/** Numbers held in registers added and subtracted by executing one instruction after
    the other: ADDS then ADCS, SUBS then SBCS. Module MemorySums does it in memory. */
module LongSums {
  import opened Words
  import opened Builds
  import opened Registers
  import opened Core
  import opened Fields
  import opened Encodings
  import opened DataProcessing
  import opened FlagLaws
  import opened OperandLaws
  import opened StackLaws
  import opened Instruction
  import opened MultiWord

  /** The registers of one word: rd := rn + rm, or rn - rm. */
  datatype Limb = Limb(rd: Low, rn: Low, rm: Low)

  /** ADDS, ADCS, SUBS and SBCS. */
  function Op(sub: bool, first: bool): (op: nat)
    ensures op in {2, 4, 5, 6}
  {
    if sub then (if first then 2 else 6) else (if first then 4 else 5)
  }

  function SumWord(op: nat, d: Limb): Word
    requires op in {2, 4, 5, 6}
  {
    CodedByField(14, op, 1, d.rn, d.rd, 0, 0, d.rm)
  }

  lemma SumFields(op: nat, d: Limb)
    requires op in {2, 4, 5, 6}
    ensures var ins := SumWord(op, d);
      && Cond(ins) == 14 && TypeOp(ins) == 0 && Bit25(ins) == 0 && Opcode(ins) == op && Bit20(ins) == 1
      && Rn(ins) == d.rn && Rd(ins) == d.rd && Rm(ins) == d.rm && Imm12(ins) == d.rm
      && Bit4(ins) == 0 && ShiftKind(ins) == 0 && ShiftImm(ins) == 0
  {
    hide CodedByField, Cond, TypeOp, Bit25, Opcode, Bit20, Rn, Rd, Rm, Imm12, Bit4, ShiftKind, ShiftImm;
    ByFieldFields(14, op, 1, d.rn, d.rd, 0, 0, d.rm);
  }

  // ---------- runs ----------

  /** The limbs from the least significant one, dispatched one after the other. */
  function Ran(b: Build, s: State, sub: bool, first: bool, limbs: seq<Limb>): State
    decreases |limbs|
  {
    if limbs == [] then s
    else Ran(b, Dispatched(b, s, SumWord(Op(sub, first), limbs[0])), sub, false, limbs[1..])
  }

  datatype Part = Dest | Left | Right

  function Reg(d: Limb, p: Part): Low {
    match p case Dest => d.rd case Left => d.rn case Right => d.rm
  }

  /** The number that the destinations, or the left or right operands, spell. */
  function Number(s: State, limbs: seq<Limb>, p: Part): nat {
    if limbs == [] then 0 else ReadR(s, Reg(limbs[0], p)) + 0x1_0000_0000 * Number(s, limbs[1..], p)
  }

  /** What 1 is worth past the last word. */
  function Past(n: nat): nat {
    if n == 0 then 1 else 0x1_0000_0000 * Past(n - 1)
  }

  /** No limb overwrites a register a later one uses. */
  predicate Clear(d: Limb, rest: seq<Limb>) {
    forall j: nat, p: Part :: j < |rest| ==> Reg(rest[j], p) != d.rd
  }

  predicate Separate(limbs: seq<Limb>) {
    limbs == [] || (Clear(limbs[0], limbs[1..]) && Separate(limbs[1..]))
  }

  // ---------- one limb ----------

  /** The state s' has the registers of s but for rd. */
  ghost predicate KeepsOthers(s: State, s': State, rd: Low) {
    ModeOf(s') == ModeOf(s) && forall r: nat :: r < 15 && r != rd ==> ReadR(s', r) == ReadR(s, r)
  }

  lemma LimbRuns(b: Build, s: State, sub: bool, first: bool, d: Limb)
    requires Known(ModeOf(s))
    ensures var ins := SumWord(Op(sub, first), d);
      && Dispatched(b, s, ins) == Executed(b, s, ins) && ArithSets(s, ins) && Opcode(ins) == Op(sub, first)
      && Rd(ins) == d.rd && Rn(ins) == d.rn && Imm12(ins) == d.rm
      && FirstOf(s, ins) == ReadR(s, d.rn) && SecondOf(b, s, ins) == ReadR(s, d.rm)
      && KeepsOthers(s, Executed(b, s, ins), d.rd)
  {
    hide SumWord, Executed, ReadR, SecondOperand, Op, KeepsOthers;
    hide Cond, TypeOp, Bit25, Opcode, Bit20, Bit4, ShiftKind, ShiftImm, Rn, Rd, Rm, Imm12;
    SumFields(Op(sub, first), d);
    OperandLsl0(b, s, SumWord(Op(sub, first), d));
    OthersKept(b, s, SumWord(Op(sub, first), d));
  }

  lemma OthersKept(b: Build, s: State, ins: Word)
    requires Known(ModeOf(s)) && Rd(ins) < 15
    ensures KeepsOthers(s, Executed(b, s, ins), Rd(ins))
  {
    hide SecondOperand, Alu, Pack, Opcode, Rd, ReadR, NewFlags, WriteR;
    var result := ResultOf(b, s, ins);
    var s1 := if IsTest(Opcode(ins)) then s else WriteR(b, s, Rd(ins), result);
    ReadsAfterWrite(b, s, Rd(ins), result);
    var f := NewFlags(b, s1, ins, result, SecondOperand(b, s, ins).1, FirstOf(s, ins), SecondOf(b, s, ins));
    assert Executed(b, s, ins) == WithCpsr(s1, Pack(Cpsr(s1), f));
    PackKeepsMode(Cpsr(s1), f);
    hide Executed;
    forall r: nat | r < 15 ensures ReadR(WithCpsr(s1, Pack(Cpsr(s1), f)), r) == ReadR(s1, r) {
      CpsrIsNoRegister(s1, Pack(Cpsr(s1), f), r);
    }
  }

  // ---------- from limbs to a run of links ----------

  function RunOf(b: Build, s: State, sub: bool, first: bool, limbs: seq<Limb>): Run
    requires limbs != []
    decreases |limbs|
  {
    var ins := SumWord(Op(sub, first), limbs[0]);
    if |limbs| == 1 then Last(Link(s, ins))
    else More(Link(s, ins), RunOf(b, Dispatched(b, s, ins), sub, false, limbs[1..]))
  }

  lemma {:induction false} NumberKept(s: State, s': State, limbs: seq<Limb>, p: Part)
    requires forall j: nat :: j < |limbs| ==> ReadR(s', Reg(limbs[j], p)) == ReadR(s, Reg(limbs[j], p))
    ensures Number(s', limbs, p) == Number(s, limbs, p)
  {
    hide ReadR;
    if limbs != [] {
      NumberKept(s, s', limbs[1..], p);
    }
  }

  lemma ClearKept(s: State, s': State, d: Limb, rest: seq<Limb>, p: Part)
    requires KeepsOthers(s, s', d.rd) && Clear(d, rest)
    ensures Number(s', rest, p) == Number(s, rest, p)
  {
    hide ReadR;
    NumberKept(s, s', rest, p);
  }

  /** The limbs of a run leave a register alone that none of them writes. */
  lemma {:induction false} RunKeeps(b: Build, s: State, sub: bool, first: bool, limbs: seq<Limb>, r: Low)
    requires Known(ModeOf(s)) && forall j: nat :: j < |limbs| ==> limbs[j].rd != r
    ensures ReadR(Ran(b, s, sub, first, limbs), r) == ReadR(s, r)
    decreases |limbs|
  {
    hide ReadR, Dispatched, Executed;
    if limbs != [] {
      LimbRuns(b, s, sub, first, limbs[0]);
      hide ArithSets, FirstOf, SecondOf, SumWord, Op;
      RunKeeps(b, Dispatched(b, s, SumWord(Op(sub, first), limbs[0])), sub, false, limbs[1..], r);
    }
  }

  /** The links of the run are linked, and spell what the limbs do: the operands in the
      first state, the results in the last. */
  lemma {:induction false} RunSpells(b: Build, s: State, sub: bool, first: bool, limbs: seq<Limb>)
    requires Known(ModeOf(s)) && limbs != [] && Separate(limbs)
    ensures var r, s' := RunOf(b, s, sub, first, limbs), Ran(b, s, sub, first, limbs);
      && r.link == Link(s, SumWord(Op(sub, first), limbs[0])) && Sets(r.link, Op(sub, first))
      && Linked(b, r, Op(sub, false))
      && Augend(r) == Number(s, limbs, Left) && Addend(b, r) == Number(s, limbs, Right)
      && Result(b, r) == Number(s', limbs, Dest)
      && Final(b, r) == CFlag(Cpsr(s')) && Radix(r) == Past(|limbs|)
    decreases |limbs|
  {
    hide ReadR, Dispatched, Executed, SumWord, Op, CFlag, ArithSets, FirstOf, SecondOf, KeepsOthers, Clear;
    var d, rest := limbs[0], limbs[1..];
    var ins := SumWord(Op(sub, first), d);
    LimbRuns(b, s, sub, first, d);
    var s1 := Dispatched(b, s, ins);
    if |limbs| == 1 {
      OneLimb(b, s, sub, first, limbs);
    } else {
      SameMode(s, s1, d.rd);
      RunSpells(b, s1, sub, false, rest);
      ClearKept(s, s1, d, rest, Left);
      ClearKept(s, s1, d, rest, Right);
      DestinationKept(b, s1, sub, d, rest);
    }
  }

  lemma SameMode(s: State, s': State, rd: Low)
    requires KeepsOthers(s, s', rd)
    ensures ModeOf(s') == ModeOf(s)
  {
  }

  lemma DestinationKept(b: Build, s: State, sub: bool, d: Limb, rest: seq<Limb>)
    requires Known(ModeOf(s)) && Clear(d, rest)
    ensures ReadR(Ran(b, s, sub, false, rest), d.rd) == ReadR(s, d.rd)
  {
    hide ReadR, Ran;
    forall j: nat | j < |rest| ensures rest[j].rd != d.rd {
      assert Reg(rest[j], Dest) != d.rd;
    }
    RunKeeps(b, s, sub, false, rest, d.rd);
  }

  lemma OneLimb(b: Build, s: State, sub: bool, first: bool, limbs: seq<Limb>)
    requires |limbs| == 1
    ensures Ran(b, s, sub, first, limbs) == Dispatched(b, s, SumWord(Op(sub, first), limbs[0]))
    ensures forall s: State, p: Part :: Number(s, limbs, p) == ReadR(s, Reg(limbs[0], p))
    ensures Past(1) == 0x1_0000_0000
  {
    hide ReadR, Dispatched, SumWord;
  }

  // ---------- the results ----------

  /** The C that the first instruction takes in: ADDS adds none, SUBS borrows none. */
  function Incoming(s: State, sub: bool, first: bool): Flag {
    if first then ToFlag(sub) else CFlag(Cpsr(s))
  }

  /** How far the registers and C are from the exact sum or difference of the numbers
      in the first state. */
  function LongError(b: Build, s: State, sub: bool, first: bool, limbs: seq<Limb>): int {
    var s' := Ran(b, s, sub, first, limbs);
    var x, y, z := Number(s, limbs, Left), Number(s, limbs, Right), Number(s', limbs, Dest);
    var past: int := Past(|limbs|);
    if sub then x - y - (1 - Incoming(s, sub, first)) - (z - (if CFlag(Cpsr(s')) == 0 then past else 0))
    else x + y + Incoming(s, sub, first) - (z + (if CFlag(Cpsr(s')) == 1 then past else 0))
  }

  lemma ErrorOfRun(b: Build, s: State, sub: bool, first: bool, limbs: seq<Limb>)
    requires Known(ModeOf(s)) && limbs != [] && Separate(limbs)
    ensures var r := RunOf(b, s, sub, first, limbs);
      && LongError(b, s, sub, first, limbs) == (if sub then DifferenceError(b, r) else SumError(b, r))
      && (if sub then Subtractions(b, r) else Additions(b, r))
  {
    hide RunOf, Ran, Number, Past, Augend, Addend, Result, Final, Radix, CFlag, ArithSets, SumWord, Linked, Separate;
    RunSpells(b, s, sub, first, limbs);
  }

  /** With the flag formulas repaired the registers and C hold the exact sum or
      difference of any two numbers there are registers for: for sums C is the carry out, for
      differences C clear is the borrow. */
  lemma LongExact(b: Build, s: State, sub: bool, first: bool, limbs: seq<Limb>)
    requires b.operandFlags && Known(ModeOf(s)) && limbs != [] && Separate(limbs)
    ensures LongError(b, s, sub, first, limbs) == 0
  {
    var r := RunOf(b, s, sub, first, limbs);
    ErrorOfRun(b, s, sub, first, limbs);
    hide RunOf, LongError, Separate;
    if sub {
      RepairedDifference(b, r);
    } else {
      RepairedSum(b, r);
    }
    hide Subtractions, Additions, Augend, Addend, Result, Final, Radix;
  }

  // ---------- as written ----------

  /** The written carries, which see only register numbers, are those of the operands in
      the first state, c being the carry taken in. */
  predicate NumbersAgree(s: State, sub: bool, first: bool, limbs: seq<Limb>, c: Flag) {
    limbs == [] ||
    (var d, op := limbs[0], Op(sub, first);
     var carry := WrittenC(op, d.rn, d.rm, c);
     && carry == ManualC(op, ReadR(s, d.rn), ReadR(s, d.rm), c)
     && NumbersAgree(s, sub, false, limbs[1..], carry))
  }

  lemma {:induction false} NumbersKept(s: State, s': State, sub: bool, first: bool, d: Limb, rest: seq<Limb>, c: Flag)
    requires KeepsOthers(s, s', d.rd) && Clear(d, rest)
    ensures NumbersAgree(s', sub, first, rest, c) == NumbersAgree(s, sub, first, rest, c)
    decreases |rest|
  {
    if rest != [] {
      assert Reg(rest[0], Left) != d.rd && Reg(rest[0], Right) != d.rd;
      hide ReadR, WrittenC, ManualC;
      ClearTail(d, rest);
      NumbersKept(s, s', sub, false, d, rest[1..], WrittenC(Op(sub, first), rest[0].rn, rest[0].rm, c));
    }
    hide Op;
  }

  lemma ClearTail(d: Limb, rest: seq<Limb>)
    requires Clear(d, rest) && rest != []
    ensures Clear(d, rest[1..])
  {
  }

  lemma {:induction false} NumbersDecide(b: Build, s: State, sub: bool, first: bool, limbs: seq<Limb>)
    requires !b.operandFlags && Known(ModeOf(s)) && limbs != [] && Separate(limbs)
    ensures AllExact(b, RunOf(b, s, sub, first, limbs))
      <==> NumbersAgree(s, sub, first, limbs, CFlag(Cpsr(s)))
    decreases |limbs|
  {
    hide ReadR, Dispatched, Executed, SumWord, Op, CFlag, ArithSets, FirstOf, SecondOf, KeepsOthers, Clear;
    hide WrittenC, ManualC;
    var d, rest := limbs[0], limbs[1..];
    var l := Link(s, SumWord(Op(sub, first), d));
    LimbRuns(b, s, sub, first, d);
    WrittenCarryOut(b, l);
    if |limbs| > 1 {
      var s1 := Dispatched(b, s, l.ins);
      SameMode(s, s1, d.rd);
      NumbersDecide(b, s1, sub, false, rest);
      NumbersKept(s, s1, sub, false, d, rest, CFlag(Cpsr(s1)));
    }
  }

  /** As written the result is exact exactly when the register numbers carry or borrow
      as the operands do: a condition on the first state alone. */
  lemma WrittenLongExact(b: Build, s: State, sub: bool, first: bool, limbs: seq<Limb>)
    requires !b.operandFlags && Known(ModeOf(s)) && limbs != [] && Separate(limbs)
    ensures LongError(b, s, sub, first, limbs) == 0 <==> NumbersAgree(s, sub, first, limbs, CFlag(Cpsr(s)))
  {
    var r := RunOf(b, s, sub, first, limbs);
    ErrorOfRun(b, s, sub, first, limbs);
    NumbersDecide(b, s, sub, first, limbs);
    hide RunOf, LongError, Separate, NumbersAgree, AllExact;
    if sub {
      DifferenceExact(b, r);
    } else {
      SumExact(b, r);
    }
    hide Subtractions, Additions, DifferenceError, SumError;
  }

  /** For sums that is: no word carries, as no two register numbers add up to more
      than 33. */
  lemma {:induction false} SumsNeverCarry(s: State, first: bool, limbs: seq<Limb>, c: Flag)
    ensures NumbersAgree(s, false, first, limbs, c) <==>
      limbs == [] ||
      (ReadR(s, limbs[0].rn) + ReadR(s, limbs[0].rm) + (if first then 0 else c) < 0x1_0000_0000
       && NoneCarries(s, limbs[1..]))
    decreases |limbs|
  {
    hide ReadR;
    if limbs != [] {
      SumsNeverCarry(s, false, limbs[1..], 0);
    }
  }

  predicate NoneCarries(s: State, limbs: seq<Limb>) {
    forall j: nat :: j < |limbs| ==> ReadR(s, limbs[j].rn) + ReadR(s, limbs[j].rm) < 0x1_0000_0000
  }

  /** So as written ADDS and ADCS are right exactly for numbers no two words of which
      carry. */
  lemma WrittenSumsExact(b: Build, s: State, limbs: seq<Limb>)
    requires !b.operandFlags && Known(ModeOf(s)) && limbs != [] && Separate(limbs)
    ensures LongError(b, s, false, true, limbs) == 0 <==> NoneCarries(s, limbs)
  {
    WrittenLongExact(b, s, false, true, limbs);
    SumsNeverCarry(s, true, limbs, CFlag(Cpsr(s)));
    hide ReadR, LongError, NumbersAgree, Separate, CFlag;
    assert forall j: nat :: 0 < j < |limbs| ==> limbs[j] == limbs[1..][j - 1];
  }

  /** For differences: the first two register numbers order like the first two words, the
      second words do not borrow with the borrow so written, and no later words do. */
  predicate NoneBorrows(s: State, limbs: seq<Limb>)
    requires limbs != []
  {
    && (limbs[0].rn >= limbs[0].rm <==> ReadR(s, limbs[0].rn) >= ReadR(s, limbs[0].rm))
    && (|limbs| > 1 ==>
          ReadR(s, limbs[1].rn) - ReadR(s, limbs[1].rm) >= if limbs[0].rn >= limbs[0].rm then 0 else 1)
    && (forall j: nat :: 2 <= j < |limbs| ==> ReadR(s, limbs[j].rn) >= ReadR(s, limbs[j].rm))
  }

  /** SBCS always leaves C set, so the words after one must not borrow. */
  lemma {:induction false} LaterNeverBorrow(s: State, limbs: seq<Limb>, c: Flag)
    ensures NumbersAgree(s, true, false, limbs, c) <==>
      && (limbs != [] ==> ReadR(s, limbs[0].rn) - ReadR(s, limbs[0].rm) >= 1 - c)
      && (forall j: nat :: 1 <= j < |limbs| ==> ReadR(s, limbs[j].rn) >= ReadR(s, limbs[j].rm))
    decreases |limbs|
  {
    hide ReadR;
    if limbs != [] {
      LaterNeverBorrow(s, limbs[1..], 1);
      assert forall j: nat :: 1 <= j < |limbs| ==> limbs[j] == limbs[1..][j - 1];
    }
  }

  lemma WrittenDifferencesExact(b: Build, s: State, limbs: seq<Limb>)
    requires !b.operandFlags && Known(ModeOf(s)) && limbs != [] && Separate(limbs)
    ensures LongError(b, s, true, true, limbs) == 0 <==> NoneBorrows(s, limbs)
  {
    hide ReadR, LongError, Separate, CFlag;
    WrittenLongExact(b, s, true, true, limbs);
    var first: Flag := if limbs[0].rn >= limbs[0].rm then 1 else 0;
    LaterNeverBorrow(s, limbs[1..], first);
    assert forall j: nat :: 1 <= j < |limbs| ==> limbs[j] == limbs[1..][j - 1];
  }
}
