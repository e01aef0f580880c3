/** Numbers of any length in memory added and subtracted word by word: two loads, ADDS
    then ADCS, or SUBS then SBCS, and a store, all with pointers that move on. */
module MemorySums {
  import opened Words
  import opened Builds
  import opened Registers
  import opened Memory
  import opened MemoryRuns
  import opened Core
  import opened Fields
  import opened Encodings
  import opened Decode
  import opened DataProcessing
  import opened FlagLaws
  import opened StackLaws
  import opened Instruction
  import opened MultiWord
  import opened LongSums

  /** The pointers to the operands and to the result, and two registers to work in. */
  datatype Use = Use(left: Low, right: Low, dest: Low, x: Low, y: Low)

  predicate Distinct(u: Use) {
    && u.left !in {u.right, u.dest, u.x, u.y} && u.right !in {u.dest, u.x, u.y}
    && u.dest !in {u.x, u.y} && u.x != u.y
  }

  // ---------- the store ----------

  /** STR rd, [rn], #4, whatever the flags. */
  function StoreWord(rn: Low, rd: Low): Word {
    CodedSingle(14, 0, 0, 1, 0, 0, 0, rn, rd, 4)
  }

  /** The base moves, then the word is stored where it pointed. */
  function Put(b: Build, s: State, rn: Low, rd: Low): State {
    var s1 := WriteR(b, s, rn, Trunc(ReadR(s, rn) + 4));
    Poke(s1, ReadR(s, rn), W4, ReadR(s1, rd))
  }

  lemma DispatchedPut(b: Build, s: State, rn: Low, rd: Low)
    ensures Dispatched(b, s, StoreWord(rn, rd)) == Put(b, s, rn, rd)
  {
    hide CodedSingle, ReadR, WriteR, Poke, Trunc, FlagsOf;
    hide Cond, TypeOp, Bit25, Bit24, Bit23, Bit22, Bit21, Bit20, Rn, Rd, Imm12;
    SingleFields(14, 0, 0, 1, 0, 0, 0, rn, rd, 4);
  }

  // ---------- the program ----------

  /** The loads of one word of each operand, */
  function WordsLoaded(b: Build, s: State, u: Use): State {
    Dispatched(b, Dispatched(b, s, Encoded(14, u.left, Pop(u.x))), Encoded(14, u.right, Pop(u.y)))
  }

  function SumOf(u: Use): Limb {
    Limb(u.x, u.x, u.y)
  }

  /** the addition or subtraction, and the store of the result. */
  function WordDone(b: Build, s: State, sub: bool, first: bool, u: Use): State {
    Dispatched(b, Dispatched(b, WordsLoaded(b, s, u), SumWord(Op(sub, first), SumOf(u))), StoreWord(u.dest, u.x))
  }

  function AllDone(b: Build, s: State, sub: bool, first: bool, u: Use, n: nat): State
    decreases n
  {
    if n == 0 then s else AllDone(b, WordDone(b, s, sub, first, u), sub, false, u, n - 1)
  }

  /** The number n words spell in memory from address a on, least significant first. */
  function Spelled(m: Mem, a: nat, n: nat): nat
    requires a + 4 * n <= |m.bytes|
    decreases n
  {
    if n == 0 then 0 else Load(m, a, W4) + 0x1_0000_0000 * Spelled(m, a + 4, n - 1)
  }

  /** n words from a on, and a register that points to them. */
  predicate Pointed(s: State, reg: Low, a: nat, n: nat) {
    && ReadR(s, reg) == Trunc(a) && a % 4 == 0
    && a + 4 * n <= |s.mem.bytes| && a + 4 * n <= 0x1_0000_0000
  }

  predicate Ready(s: State, u: Use, p: nat, q: nat, r: nat, n: nat) {
    && s.stop == Running && Known(ModeOf(s)) && Distinct(u)
    && Pointed(s, u.left, p, n) && Pointed(s, u.right, q, n) && Pointed(s, u.dest, r, n)
  }

  /** The result at r does not overwrite words of the operand at p yet to be read: the
      blocks are apart, or the same, or the result begins below. */
  predicate ReadFirst(p: nat, r: nat, n: nat) {
    r <= p || p + 4 * n <= r
  }

  // ---------- the steps of one word ----------

  /** Registers but rn and rd, the CPSR, memory and running on are kept. */
  ghost predicate Same(s: State, s': State, rn: Low, rd: Low) {
    && s'.stop == s.stop && Cpsr(s') == Cpsr(s)
    && forall i: nat :: i < 15 && i != rn && i != rd ==> ReadR(s', i) == ReadR(s, i)
  }

  lemma WordLoaded(b: Build, s: State, rn: Low, rd: Low, a: nat)
    requires Known(ModeOf(s)) && rn != rd && Pointed(s, rn, a, 1)
    ensures var s' := Dispatched(b, s, Encoded(14, rn, Pop(rd)));
      && Same(s, s', rn, rd) && s'.mem == s.mem
      && ReadR(s', rn) == Trunc(a + 4) && ReadR(s', rd) == Load(s.mem, a, W4)
  {
    hide Load, Trunc, Encoded, ReadR, Known;
    assert Condition(Cpsr(s), 14) by { hide FlagsOf; }
    DispatchedActs(b, s, 14, rn, Pop(rd));
    hide Condition, FlagsOf, Dispatched;
    SmallTrunc(a);
    var v := Load(s.mem, a, W4);
    ReadsAfterWrite(b, s, rn, Trunc(a + 4));
    var s1 := WriteR(b, s, rn, Trunc(a + 4));
    assert Peek(s1, a, W4) == Value(v);
    hide Peek;
    ReadsAfterWrite(b, s1, rd, v);
    assert Acted(b, s, rn, Pop(rd)) == WriteR(b, s1, rd, v);
    hide WriteR;
  }

  lemma WordStored(b: Build, s: State, rn: Low, rd: Low, a: nat)
    requires Known(ModeOf(s)) && rn != rd && Pointed(s, rn, a, 1)
    ensures var s' := Dispatched(b, s, StoreWord(rn, rd));
      && Same(s, s', rn, rn) && s'.mem == Store(s.mem, a, W4, ReadR(s, rd)) && ReadR(s', rn) == Trunc(a + 4)
  {
    hide Store, Trunc, StoreWord, ReadR, Known;
    DispatchedPut(b, s, rn, rd);
    hide Dispatched;
    SmallTrunc(a);
    ReadsAfterWrite(b, s, rn, Trunc(a + 4));
    var s1 := WriteR(b, s, rn, Trunc(a + 4));
    assert Poke(s1, a, W4, ReadR(s, rd)) == s1.(mem := Store(s.mem, a, W4, ReadR(s, rd)));
    hide Poke, WriteR;
    PokeKeepsRegisters(s1, Store(s.mem, a, W4, ReadR(s, rd)));
  }

  lemma ExecutedKeeps(b: Build, s: State, ins: Word)
    ensures Executed(b, s, ins).mem == s.mem && Executed(b, s, ins).stop == s.stop
  {
    hide SecondOperand, Alu, Pack, NewFlags, Write, Opcode, ReadR;
  }

  /** After the loads both words are in their registers and the pointers are past them. */
  lemma BothLoaded(b: Build, s: State, u: Use, p: nat, q: nat, r: nat, n: nat)
    requires n > 0 && Ready(s, u, p, q, r, n)
    ensures var t := WordsLoaded(b, s, u);
      && t.mem == s.mem && t.stop == Running && Cpsr(t) == Cpsr(s) && Known(ModeOf(t))
      && ReadR(t, u.x) == Load(s.mem, p, W4) && ReadR(t, u.y) == Load(s.mem, q, W4)
      && ReadR(t, u.left) == Trunc(p + 4) && ReadR(t, u.right) == Trunc(q + 4) && ReadR(t, u.dest) == Trunc(r)
  {
    hide Load, Trunc, Encoded, ReadR, Known, Dispatched;
    WordLoaded(b, s, u.left, u.x, p);
    var t := Dispatched(b, s, Encoded(14, u.left, Pop(u.x)));
    assert ModeOf(t) == ModeOf(s);
    WordLoaded(b, t, u.right, u.y, q);
    assert ModeOf(WordsLoaded(b, s, u)) == ModeOf(t);
  }

  /** One word: its link of the run, and the state made ready for the next. */
  lemma WordRuns(b: Build, s: State, sub: bool, first: bool, u: Use, p: nat, q: nat, r: nat, n: nat)
    requires n > 0 && Ready(s, u, p, q, r, n)
    ensures var l, s' := LinkOf(b, s, sub, first, u), WordDone(b, s, sub, first, u);
      && Sets(l, Op(sub, first)) && CarryIn(l) == CFlag(Cpsr(s))
      && FirstOf(l.s, l.ins) == Load(s.mem, p, W4) && SecondOf(b, l.s, l.ins) == Load(s.mem, q, W4)
      && Rn(l.ins) == u.x && Imm12(l.ins) == u.y && Rd(l.ins) == u.x
      && s'.mem == Store(s.mem, r, W4, ReadR(After(b, l), u.x)) && CFlag(Cpsr(s')) == CarryOut(b, l)
      && Ready(s', u, p + 4, q + 4, r + 4, n - 1)
  {
    hide Load, Store, Trunc, ReadR, Known, Dispatched, Executed, CFlag, WordsLoaded, SumWord, StoreWord, Op;
    hide FirstOf, SecondOf, ArithSets, Rn, Rd, Imm12, Opcode;
    BothLoaded(b, s, u, p, q, r, n);
    var t, ins := WordsLoaded(b, s, u), SumWord(Op(sub, first), SumOf(u));
    LimbRuns(b, t, sub, first, SumOf(u));
    ExecutedKeeps(b, t, ins);
    var t' := Dispatched(b, t, ins);
    WordStored(b, t', u.dest, u.x, r);
    assert ModeOf(WordDone(b, s, sub, first, u)) == ModeOf(t');
  }

  function LinkOf(b: Build, s: State, sub: bool, first: bool, u: Use): Link {
    Link(WordsLoaded(b, s, u), SumWord(Op(sub, first), SumOf(u)))
  }

  function LinksOf(b: Build, s: State, sub: bool, first: bool, u: Use, n: nat): Run
    requires n > 0
    decreases n
  {
    if n == 1 then Last(LinkOf(b, s, sub, first, u))
    else More(LinkOf(b, s, sub, first, u), LinksOf(b, WordDone(b, s, sub, first, u), sub, false, u, n - 1))
  }

  // ---------- memory over a run ----------

  /** A store elsewhere does not change the number. */
  lemma {:induction false} SpelledKept(m: Mem, r: nat, v: Word, a: nat, n: nat)
    requires a + 4 * n <= |m.bytes| && r + 4 <= |m.bytes| && (r + 4 <= a || a + 4 * n <= r)
    ensures Spelled(Store(m, r, W4, v), a, n) == Spelled(m, a, n)
    decreases n
  {
    hide Load, Store;
    if n > 0 {
      LoadElsewhere(m, r, W4, v, a, W4);
      SpelledKept(m, r, v, a + 4, n - 1);
    }
  }

  /** The run writes the n words of the result and no other byte, and moves the
      pointers past their blocks. */
  lemma {:induction false} RunWrites(b: Build, s: State, sub: bool, first: bool, u: Use,
                                     p: nat, q: nat, r: nat, n: nat)
    requires Ready(s, u, p, q, r, n)
    ensures var s' := AllDone(b, s, sub, first, u, n);
      && |s'.mem.bytes| == |s.mem.bytes| && s'.mem.big == s.mem.big
      && Ready(s', u, p + 4 * n, q + 4 * n, r + 4 * n, 0)
      && (forall a: nat :: a < |s.mem.bytes| && !(r <= a < r + 4 * n) ==> s'.mem.bytes[a] == s.mem.bytes[a])
    decreases n
  {
    hide WordDone, Ready;
    if n > 0 {
      WordWrites(b, s, sub, first, u, p, q, r, n);
      RunWrites(b, WordDone(b, s, sub, first, u), sub, false, u, p + 4, q + 4, r + 4, n - 1);
    }
  }

  lemma WordWrites(b: Build, s: State, sub: bool, first: bool, u: Use, p: nat, q: nat, r: nat, n: nat)
    requires n > 0 && Ready(s, u, p, q, r, n)
    ensures var s' := WordDone(b, s, sub, first, u);
      && |s'.mem.bytes| == |s.mem.bytes| && s'.mem.big == s.mem.big
      && Ready(s', u, p + 4, q + 4, r + 4, n - 1)
      && (forall a: nat :: a < |s.mem.bytes| && !(r <= a < r + 4) ==> s'.mem.bytes[a] == s.mem.bytes[a])
  {
    hide WordDone, Load, Store, Sets, CarryIn, CarryOut, FirstOf, SecondOf, LinkOf, Rn, Rd, Imm12, After, ReadR, CFlag;
    assert r + 4 <= |s.mem.bytes|;
    hide Ready;
    WordRuns(b, s, sub, first, u, p, q, r, n);
    StoredOnly(s.mem, r, ReadR(After(b, LinkOf(b, s, sub, first, u)), u.x));
  }

  lemma StoredOnly(m: Mem, r: nat, v: Word)
    requires r + 4 <= |m.bytes|
    ensures forall a: nat :: a < |m.bytes| && !(r <= a < r + 4) ==> Store(m, r, W4, v).bytes[a] == m.bytes[a]
  {
    hide Store;
    forall a: nat | a < |m.bytes| && !(r <= a < r + 4)
      ensures Store(m, r, W4, v).bytes[a] == m.bytes[a]
    {
      StoredByte(m, r, W4, v, a);
    }
  }

  /** The words below the place a run writes from are kept. */
  lemma LoadKept(m: Mem, m': Mem, a: nat, r: nat)
    requires a + 4 <= r <= |m.bytes| == |m'.bytes| && m'.big == m.big
    requires forall i: nat :: i < r ==> m'.bytes[i] == m.bytes[i]
    ensures Load(m', a, W4) == Load(m, a, W4)
  {
  }

  /** The links of the run are linked, */
  lemma {:induction false} RunLinked(b: Build, s: State, sub: bool, first: bool, u: Use,
                                     p: nat, q: nat, r: nat, n: nat)
    requires n > 0 && Ready(s, u, p, q, r, n)
    ensures var run, s' := LinksOf(b, s, sub, first, u, n), AllDone(b, s, sub, first, u, n);
      && run.link == LinkOf(b, s, sub, first, u) && Sets(run.link, Op(sub, first)) && Linked(b, run, Op(sub, false))
      && CarryIn(run.link) == CFlag(Cpsr(s)) && Final(b, run) == CFlag(Cpsr(s')) && Radix(run) == Past(n)
    decreases n
  {
    hide WordDone, Load, Store, CFlag, CarryOut, CarryIn, FirstOf, SecondOf, LinkOf, Rn, Rd, Imm12, After, ReadR, Sets;
    hide Op, Ready;
    WordRuns(b, s, sub, first, u, p, q, r, n);
    if n > 1 {
      RunLinked(b, WordDone(b, s, sub, first, u), sub, false, u, p + 4, q + 4, r + 4, n - 1);
    } else {
      assert Past(1) == 0x1_0000_0000;
    }
  }

  /** and spell what the program does: the operands in the first memory, */
  lemma {:induction false} RunOperands(b: Build, s: State, sub: bool, first: bool, u: Use,
                                       p: nat, q: nat, r: nat, n: nat)
    requires n > 0 && Ready(s, u, p, q, r, n) && ReadFirst(p, r, n) && ReadFirst(q, r, n)
    ensures p + 4 * n <= |s.mem.bytes| && q + 4 * n <= |s.mem.bytes|
    ensures var run := LinksOf(b, s, sub, first, u, n);
      Augend(run) == Spelled(s.mem, p, n) && Addend(b, run) == Spelled(s.mem, q, n)
    decreases n
  {
    hide WordDone, Load, Store, CFlag, CarryOut, CarryIn, FirstOf, SecondOf, LinkOf, Rn, Rd, Imm12, After, ReadR, Sets;
    InBlocks(s, u, p, q, r, n);
    hide Op, Ready;
    WordRuns(b, s, sub, first, u, p, q, r, n);
    if n > 1 {
      var v := ReadR(After(b, LinkOf(b, s, sub, first, u)), u.x);
      RunOperands(b, WordDone(b, s, sub, first, u), sub, false, u, p + 4, q + 4, r + 4, n - 1);
      SpelledKept(s.mem, r, v, p + 4, n - 1);
      SpelledKept(s.mem, r, v, q + 4, n - 1);
    }
  }

  /** the result in the last. */
  lemma {:induction false} RunResult(b: Build, s: State, sub: bool, first: bool, u: Use,
                                     p: nat, q: nat, r: nat, n: nat)
    requires n > 0 && Ready(s, u, p, q, r, n)
    ensures var run, s' := LinksOf(b, s, sub, first, u, n), AllDone(b, s, sub, first, u, n);
      r + 4 * n <= |s'.mem.bytes| && Result(b, run) == Spelled(s'.mem, r, n)
    decreases n
  {
    hide WordDone, Load, Store, CFlag, CarryOut, CarryIn, FirstOf, SecondOf, LinkOf, Rn, Rd, Imm12, After, ReadR, Sets;
    hide Op, Ready;
    WordKept(b, s, sub, first, u, p, q, r, n);
    WordRuns(b, s, sub, first, u, p, q, r, n);
    if n > 1 {
      RunResult(b, WordDone(b, s, sub, first, u), sub, false, u, p + 4, q + 4, r + 4, n - 1);
    }
  }

  /** The first word of the result stays until the end. */
  lemma WordKept(b: Build, s: State, sub: bool, first: bool, u: Use, p: nat, q: nat, r: nat, n: nat)
    requires n > 0 && Ready(s, u, p, q, r, n)
    ensures var s' := AllDone(b, s, sub, first, u, n);
      && r + 4 * n <= |s'.mem.bytes|
      && Load(s'.mem, r, W4) == ReadR(After(b, LinkOf(b, s, sub, first, u)), u.x)
  {
    hide WordDone, Load, Store, CFlag, CarryOut, FirstOf, SecondOf, LinkOf, Rn, Rd, Imm12, After, ReadR, Sets, Op;
    InBlocks(s, u, p, q, r, n);
    hide Ready;
    WordRuns(b, s, sub, first, u, p, q, r, n);
    var v, s1 := ReadR(After(b, LinkOf(b, s, sub, first, u)), u.x), WordDone(b, s, sub, first, u);
    LoadStored(s.mem, r, W4, v);
    RunWrites(b, s1, sub, false, u, p + 4, q + 4, r + 4, n - 1);
    LoadKept(s1.mem, AllDone(b, s1, sub, false, u, n - 1).mem, r, r + 4);
  }

  lemma InBlocks(s: State, u: Use, p: nat, q: nat, r: nat, n: nat)
    requires Ready(s, u, p, q, r, n)
    ensures p + 4 * n <= |s.mem.bytes| && q + 4 * n <= |s.mem.bytes| && r + 4 * n <= |s.mem.bytes|
  {
  }

  // ---------- the results ----------

  /** How far the words left in memory and C are from the exact sum or difference of the
      numbers the operands spelled in the first memory. */
  function MemoryError(b: Build, s: State, sub: bool, first: bool, u: Use, p: nat, q: nat, r: nat, n: nat): int
    requires Ready(s, u, p, q, r, n)
  {
    RunWrites(b, s, sub, first, u, p, q, r, n);
    InBlocks(s, u, p, q, r, n);
    var s' := AllDone(b, s, sub, first, u, n);
    var x, y, z := Spelled(s.mem, p, n), Spelled(s.mem, q, n), Spelled(s'.mem, r, n);
    var past: int := Past(n);
    if sub then x - y - (1 - Incoming(s, sub, first)) - (z - (if CFlag(Cpsr(s')) == 0 then past else 0))
    else x + y + Incoming(s, sub, first) - (z + (if CFlag(Cpsr(s')) == 1 then past else 0))
  }

  lemma ErrorOfLinks(b: Build, s: State, sub: bool, first: bool, u: Use, p: nat, q: nat, r: nat, n: nat)
    requires n > 0 && Ready(s, u, p, q, r, n) && ReadFirst(p, r, n) && ReadFirst(q, r, n)
    ensures var run := LinksOf(b, s, sub, first, u, n);
      && MemoryError(b, s, sub, first, u, p, q, r, n) == (if sub then DifferenceError(b, run) else SumError(b, run))
      && (if sub then Subtractions(b, run) else Additions(b, run))
  {
    hide LinksOf, AllDone, Spelled, Past, Augend, Addend, Result, Final, Radix, CFlag, ArithSets, Linked, Ready;
    hide LinkOf, ReadFirst;
    RunLinked(b, s, sub, first, u, p, q, r, n);
    RunOperands(b, s, sub, first, u, p, q, r, n);
    RunResult(b, s, sub, first, u, p, q, r, n);
  }

  /** With the flag formulas repaired the program leaves the exact sum or difference of
      any two numbers of any length in memory, and in C the carry out, or no borrow. */
  lemma MemoryExact(b: Build, s: State, sub: bool, first: bool, u: Use, p: nat, q: nat, r: nat, n: nat)
    requires b.operandFlags && n > 0 && Ready(s, u, p, q, r, n) && ReadFirst(p, r, n) && ReadFirst(q, r, n)
    ensures MemoryError(b, s, sub, first, u, p, q, r, n) == 0
  {
    hide LinksOf, MemoryError, Ready, ReadFirst;
    var run := LinksOf(b, s, sub, first, u, n);
    ErrorOfLinks(b, s, sub, first, u, p, q, r, n);
    if sub {
      RepairedDifference(b, run);
    } else {
      RepairedSum(b, run);
    }
    hide Subtractions, Additions, Augend, Addend, Result, Final, Radix;
  }

  // ---------- as written ----------

  /** The written carries of the two registers' numbers are those of the words in
      memory, c being the carry taken in. */
  predicate WordsAgree(m: Mem, u: Use, sub: bool, first: bool, p: nat, q: nat, n: nat, c: Flag)
    requires p + 4 * n <= |m.bytes| && q + 4 * n <= |m.bytes|
    decreases n
  {
    n == 0 ||
    (var op := Op(sub, first);
     var carry := WrittenC(op, u.x, u.y, c);
     && carry == ManualC(op, Load(m, p, W4), Load(m, q, W4), c)
     && WordsAgree(m, u, sub, false, p + 4, q + 4, n - 1, carry))
  }

  lemma {:induction false} WordsKept(m: Mem, u: Use, sub: bool, first: bool, r: nat, v: Word,
                                     p: nat, q: nat, n: nat, c: Flag)
    requires p + 4 * n <= |m.bytes| && q + 4 * n <= |m.bytes| && r + 4 <= |m.bytes|
    requires (r + 4 <= p || p + 4 * n <= r) && (r + 4 <= q || q + 4 * n <= r)
    ensures WordsAgree(Store(m, r, W4, v), u, sub, first, p, q, n, c) == WordsAgree(m, u, sub, first, p, q, n, c)
    decreases n
  {
    hide Load, Store, WrittenC, ManualC, Op;
    if n > 0 {
      LoadElsewhere(m, r, W4, v, p, W4);
      LoadElsewhere(m, r, W4, v, q, W4);
      WordsKept(m, u, sub, false, r, v, p + 4, q + 4, n - 1, WrittenC(Op(sub, first), u.x, u.y, c));
    }
  }

  lemma {:induction false} WordsDecide(b: Build, s: State, sub: bool, first: bool, u: Use,
                                       p: nat, q: nat, r: nat, n: nat)
    requires !b.operandFlags && n > 0
    requires Ready(s, u, p, q, r, n) && ReadFirst(p, r, n) && ReadFirst(q, r, n)
    ensures AllExact(b, LinksOf(b, s, sub, first, u, n))
      <==> WordsAgree(s.mem, u, sub, first, p, q, n, CFlag(Cpsr(s)))
    decreases n
  {
    hide WordDone, Load, Store, CFlag, CarryOut, FirstOf, SecondOf, LinkOf, Rn, Rd, Imm12, After, ReadR, Op;
    hide ArithSets, CarryIn, Opcode, WrittenC, ManualC;
    InBlocks(s, u, p, q, r, n);
    hide Ready;
    WordRuns(b, s, sub, first, u, p, q, r, n);
    var l, s1 := LinkOf(b, s, sub, first, u), WordDone(b, s, sub, first, u);
    WrittenCarryOut(b, l);
    if n > 1 {
      WordsDecide(b, s1, sub, false, u, p + 4, q + 4, r + 4, n - 1);
      WordsKept(s.mem, u, sub, false, r, ReadR(After(b, l), u.x), p + 4, q + 4, n - 1, CarryOut(b, l));
    }
  }

  /** As written the result is exact exactly when the numbers of the two registers carry
      or borrow as the words do. */
  lemma WrittenMemoryExact(b: Build, s: State, sub: bool, first: bool, u: Use, p: nat, q: nat, r: nat, n: nat)
    requires !b.operandFlags && n > 0
    requires Ready(s, u, p, q, r, n) && ReadFirst(p, r, n) && ReadFirst(q, r, n)
    ensures p + 4 * n <= |s.mem.bytes| && q + 4 * n <= |s.mem.bytes|
    ensures MemoryError(b, s, sub, first, u, p, q, r, n) == 0
      <==> WordsAgree(s.mem, u, sub, first, p, q, n, CFlag(Cpsr(s)))
  {
    InBlocks(s, u, p, q, r, n);
    hide LinksOf, MemoryError, Ready, ReadFirst, WordsAgree, AllExact;
    var run := LinksOf(b, s, sub, first, u, n);
    ErrorOfLinks(b, s, sub, first, u, p, q, r, n);
    WordsDecide(b, s, sub, first, u, p, q, r, n);
    if sub {
      DifferenceExact(b, run);
    } else {
      SumExact(b, run);
    }
    hide Subtractions, Additions, DifferenceError, SumError;
  }

  /** No two words carry. */
  predicate NoWordCarries(m: Mem, p: nat, q: nat, n: nat)
    requires p + 4 * n <= |m.bytes| && q + 4 * n <= |m.bytes|
    decreases n
  {
    n == 0 || (Load(m, p, W4) + Load(m, q, W4) < 0x1_0000_0000 && NoWordCarries(m, p + 4, q + 4, n - 1))
  }

  lemma {:induction false} WordsNeverCarry(m: Mem, u: Use, first: bool, p: nat, q: nat, n: nat, c: Flag)
    requires p + 4 * n <= |m.bytes| && q + 4 * n <= |m.bytes| && (first || c == 0)
    ensures WordsAgree(m, u, false, first, p, q, n, c) <==> NoWordCarries(m, p, q, n)
    decreases n
  {
    hide Load;
    if n > 0 {
      WordsNeverCarry(m, u, false, p + 4, q + 4, n - 1, 0);
    }
  }

  /** So as written ADDS and ADCS are right exactly for numbers no two words of which
      carry. */
  lemma WrittenMemorySumsExact(b: Build, s: State, u: Use, p: nat, q: nat, r: nat, n: nat)
    requires !b.operandFlags && n > 0
    requires Ready(s, u, p, q, r, n) && ReadFirst(p, r, n) && ReadFirst(q, r, n)
    ensures p + 4 * n <= |s.mem.bytes| && q + 4 * n <= |s.mem.bytes|
    ensures MemoryError(b, s, false, true, u, p, q, r, n) == 0 <==> NoWordCarries(s.mem, p, q, n)
  {
    hide MemoryError, Ready, ReadFirst, WordsAgree, NoWordCarries, CFlag;
    WrittenMemoryExact(b, s, false, true, u, p, q, r, n);
    WordsNeverCarry(s.mem, u, true, p, q, n, CFlag(Cpsr(s)));
  }
}
