/** STR rd,[rn,#-4]! and LDR rd,[rn],#4 as push and pop: the machine simulates a
    stack for any sequence of them. */
module StackLaws {
  import opened Words
  import opened Builds
  import opened Registers
  import opened RegisterLaws
  import opened Memory
  import opened MemoryRuns
  import opened Core
  import opened Fields
  import opened Encodings
  import opened Decode
  import opened LoadStore
  import opened Instruction

  /** R0 to R14, and the condition codes an instruction can pass with. */
  type Low = r: nat | r < 15

  datatype Act = Push(rd: Low) | Pop(rd: Low)

  /** The instruction words, with base rn and condition cond. */
  function Encoded(cond: Low, rn: Low, act: Act): Word {
    if act.Push? then CodedSingle(cond, 0, 1, 0, 0, 1, 0, rn, act.rd, 4)
    else CodedSingle(cond, 0, 0, 1, 0, 0, 1, rn, act.rd, 4)
  }

  lemma EncodedFields(cond: Low, rn: Low, act: Act)
    ensures var ins := Encoded(cond, rn, act);
      && Cond(ins) == cond && TypeOp(ins) == 2 && Bit25(ins) == 0 && Bit22(ins) == 0
      && Rn(ins) == rn && Rd(ins) == act.rd && Imm12(ins) == 4
      && (act.Push? ==> Bit24(ins) == 1 && Bit23(ins) == 0 && Bit21(ins) == 1 && Bit20(ins) == 0)
      && (act.Pop? ==> Bit24(ins) == 0 && Bit23(ins) == 1 && Bit21(ins) == 0 && Bit20(ins) == 1)
  {
    hide CodedSingle, Cond, TypeOp, Bit25, Bit24, Bit23, Bit22, Bit21, Bit20, Rn, Rd, Imm12;
    if act.Push? {
      SingleFields(cond, 0, 1, 0, 0, 1, 0, rn, act.rd, 4);
    } else {
      SingleFields(cond, 0, 0, 1, 0, 0, 1, rn, act.rd, 4);
    }
  }

  /** What one instruction does: the base moves, then the word is moved. */
  function Acted(b: Build, s: State, rn: Low, act: Act): State {
    var base := ReadR(s, rn);
    match act
    case Push(rd) =>
      var a := Trunc(base - 4);
      var s1 := WriteR(b, s, rn, a);
      Poke(s1, a, W4, ReadR(s1, rd))
    case Pop(rd) => LoadTo(b, WriteR(b, s, rn, Trunc(base + 4)), base, W4, rd)
  }

  lemma DispatchedActs(b: Build, s: State, cond: Low, rn: Low, act: Act)
    requires Condition(Cpsr(s), cond)
    ensures Dispatched(b, s, Encoded(cond, rn, act)) == Acted(b, s, rn, act)
  {
    EncodedFields(cond, rn, act);
    hide Encoded, Condition, ReadR, WriteR, Poke, LoadTo, Trunc;
    hide Cond, TypeOp, Bit25, Bit24, Bit23, Bit22, Bit21, Bit20, Rn, Rd, Imm12;
  }

  /** The abstract machine: R0 to R14 as the mode sees them, and a stack. */
  datatype Abstract = Abstract(view: seq<Word>, items: seq<Word>)

  function AbstractAct(m: Abstract, rn: Low, act: Act): Abstract
    requires |m.view| == 15
    requires act.Pop? ==> m.items != []
  {
    match act
    case Push(rd) => Abstract(m.view[rn := Trunc(m.view[rn] as int - 4)], [m.view[rd]] + m.items)
    case Pop(rd) => Abstract(m.view[rn := Trunc(m.view[rn] as int + 4)][rd := m.items[0]], m.items[1..])
  }

  /** No pop of an empty stack, at most room words at a time, and no register that is
      the base. */
  predicate Allowed(acts: seq<Act>, rn: Low, depth: nat, room: nat) {
    acts == [] ||
    (var act := acts[0];
     && act.rd != rn
     && (if act.Push? then depth < room && Allowed(acts[1..], rn, depth + 1, room)
         else depth > 0 && Allowed(acts[1..], rn, depth - 1, room)))
  }

  function AbstractRun(m: Abstract, rn: Low, acts: seq<Act>, room: nat): (m': Abstract)
    requires |m.view| == 15 && Allowed(acts, rn, |m.items|, room)
    ensures |m'.view| == 15
    decreases |acts|
  {
    if acts == [] then m else AbstractRun(AbstractAct(m, rn, acts[0]), rn, acts[1..], room)
  }

  /** The same acts as instructions. */
  function MachineRun(b: Build, s: State, cond: Low, rn: Low, acts: seq<Act>): State
    decreases |acts|
  {
    if acts == [] then s
    else MachineRun(b, Dispatched(b, s, Encoded(cond, rn, acts[0])), cond, rn, acts[1..])
  }

  /** The machine state s represents m: below top, which was the base in s0, lie the
      stack's words, topmost lowest; outside the room nothing has changed. */
  ghost predicate Represents(s0: State, s: State, m: Abstract, rn: Low, top: Word, room: nat) {
    && |m.view| == 15 && |m.items| <= room
    && s.stop == Running && Known(ModeOf(s)) && Cpsr(s) == Cpsr(s0)
    && |s.mem.bytes| == |s0.mem.bytes| && s.mem.big == s0.mem.big
    && top % 4 == 0 && 4 * room <= top <= |s.mem.bytes|
    && (forall r: nat :: r < 15 ==> ReadR(s, r) == m.view[r])
    && m.view[rn] == top - 4 * |m.items|
    && (forall k: nat :: k < |m.items| ==> Load(s.mem, top - 4 * |m.items| + 4 * k, W4) == m.items[k])
    && (forall a: nat :: a < |s.mem.bytes| && (a >= top || a < top - 4 * room) ==> s.mem.bytes[a] == s0.mem.bytes[a])
  }

  lemma ReadsAfterWrite(b: Build, s: State, reg: nat, value: Word)
    requires Known(ModeOf(s)) && reg < 15
    ensures var s1 := WriteR(b, s, reg, value);
      && Cpsr(s1) == Cpsr(s) && s1.mem == s.mem && s1.stop == s.stop
      && (forall r: nat :: r < 15 ==> ReadR(s1, r) == if r == reg then value else ReadR(s, r))
  {
    WriteKeepsCpsr(b.loneBank, s.regs, reg, value);
    forall r: nat | r < 15
      ensures ReadR(WriteR(b, s, reg, value), r) == if r == reg then value else ReadR(s, r)
    {
      CellsFollowManual(ModeOf(s), reg, ModeOf(s), r);
    }
  }

  lemma PushRepresented(b: Build, s0: State, s: State, m: Abstract, rn: Low, top: Word, room: nat, rd: Low)
    requires Represents(s0, s, m, rn, top, room) && rd != rn && |m.items| < room
    ensures Represents(s0, Acted(b, s, rn, Push(rd)), AbstractAct(m, rn, Push(rd)), rn, top, room)
  {
    hide Represents;
    var a, v := PushAddress(s0, s, m, rn, top, room, rd);
    ReadsAfterWrite(b, s, rn, a);
    var s1 := WriteR(b, s, rn, a);
    hide WriteR, ReadR;
    PushMemory(s0, s, m, rn, top, room, v);
    PokeKeepsRegisters(s1, Store(s.mem, a, W4, v));
    assert Acted(b, s, rn, Push(rd)) == s1.(mem := Store(s.mem, a, W4, v));
    hide Acted, Store;
    PushAssembled(s0, s, m, rn, top, room, rd, Acted(b, s, rn, Push(rd)));
  }

  lemma PushAddress(s0: State, s: State, m: Abstract, rn: Low, top: Word, room: nat, rd: Low) returns (a: Word, v: Word)
    requires Represents(s0, s, m, rn, top, room) && rd != rn && |m.items| < room
    ensures a == top - 4 * |m.items| - 4 == Trunc(ReadR(s, rn) - 4) && v == ReadR(s, rd) == m.view[rd]
    ensures |m.view| == 15 && Known(ModeOf(s)) && s.stop == Running && InRange(s.mem, a, W4)
  {
    a, v := top - 4 * |m.items| - 4, m.view[rd];
    hide ReadR;
  }

  /** The memory after a push: the new word below the others. */
  lemma PushMemory(s0: State, s: State, m: Abstract, rn: Low, top: Word, room: nat, v: Word)
    requires Represents(s0, s, m, rn, top, room) && |m.items| < room
    ensures var a, items := top - 4 * |m.items| - 4, [v] + m.items;
      var mem := Store(s.mem, a, W4, v);
      && (forall k: nat :: k < |items| ==> Load(mem, a + 4 * k, W4) == items[k])
      && (forall i: nat :: i < |mem.bytes| && (i >= top || i < top - 4 * room) ==> mem.bytes[i] == s0.mem.bytes[i])
  {
    hide ReadR, Store, Load;
    var a, items := top - 4 * |m.items| - 4, [v] + m.items;
    var mem := Store(s.mem, a, W4, v);
    LoadStored(s.mem, a, W4, v);
    forall k: nat | k < |items|
      ensures Load(mem, a + 4 * k, W4) == items[k]
    {
      if k > 0 {
        LoadElsewhere(s.mem, a, W4, v, a + 4 * k, W4);
        assert Load(s.mem, top - 4 * |m.items| + 4 * (k - 1), W4) == m.items[k - 1];
      }
    }
    forall i: nat | i < |mem.bytes| && (i >= top || i < top - 4 * room)
      ensures mem.bytes[i] == s0.mem.bytes[i]
    {
      StoredByte(s.mem, a, W4, v, i);
    }
  }

  lemma PushAssembled(s0: State, s: State, m: Abstract, rn: Low, top: Word, room: nat, rd: Low, s2: State)
    requires Represents(s0, s, m, rn, top, room) && rd != rn && |m.items| < room
    requires Cpsr(s2) == Cpsr(s) && s2.stop == s.stop
    requires |s2.mem.bytes| == |s.mem.bytes| && s2.mem.big == s.mem.big
    requires forall r: nat :: r < 15 ==> ReadR(s2, r) == if r == rn then top - 4 * |m.items| - 4 else ReadR(s, r)
    requires var a, items := top - 4 * |m.items| - 4, [m.view[rd]] + m.items;
      && (forall k: nat :: k < |items| ==> Load(s2.mem, a + 4 * k, W4) == items[k])
      && (forall i: nat :: i < |s2.mem.bytes| && (i >= top || i < top - 4 * room) ==>
            s2.mem.bytes[i] == s0.mem.bytes[i])
    ensures Represents(s0, s2, AbstractAct(m, rn, Push(rd)), rn, top, room)
  {
    hide ReadR, Load;
  }

  lemma PokeKeepsRegisters(s: State, mem: Mem)
    ensures forall r: nat :: ReadR(s.(mem := mem), r) == ReadR(s, r)
  {
  }

  lemma PopRepresented(b: Build, s0: State, s: State, m: Abstract, rn: Low, top: Word, room: nat, rd: Low)
    requires Represents(s0, s, m, rn, top, room) && rd != rn && m.items != []
    ensures Represents(s0, Acted(b, s, rn, Pop(rd)), AbstractAct(m, rn, Pop(rd)), rn, top, room)
  {
    hide Represents;
    var a := PopAddress(s0, s, m, rn, top, room);
    ReadsAfterWrite(b, s, rn, a + 4);
    var s1 := WriteR(b, s, rn, a + 4);
    assert Peek(s1, a, W4) == Value(m.items[0]) by { hide Load; }
    assert ModeOf(s1) == ModeOf(s);
    ReadsAfterWrite(b, s1, rd, m.items[0]);
    hide WriteR, ReadR, Peek;
    assert Acted(b, s, rn, Pop(rd)) == WriteR(b, s1, rd, m.items[0]);
    hide Acted;
    PopAssembled(s0, s, m, rn, top, room, rd, WriteR(b, s1, rd, m.items[0]));
  }

  lemma PopAddress(s0: State, s: State, m: Abstract, rn: Low, top: Word, room: nat) returns (a: Word)
    requires Represents(s0, s, m, rn, top, room) && m.items != []
    ensures a == top - 4 * |m.items| == ReadR(s, rn) && a + 4 == Trunc(ReadR(s, rn) + 4)
    ensures |m.view| == 15 && Known(ModeOf(s)) && InRange(s.mem, a, W4)
    ensures Load(s.mem, a, W4) == m.items[0]
  {
    hide ReadR, Load;
    a := top - 4 * |m.items|;
    assert Load(s.mem, top - 4 * |m.items| + 4 * 0, W4) == m.items[0];
  }

  lemma PopAssembled(s0: State, s: State, m: Abstract, rn: Low, top: Word, room: nat, rd: Low, s2: State)
    requires Represents(s0, s, m, rn, top, room) && rd != rn && m.items != []
    requires Cpsr(s2) == Cpsr(s) && s2.stop == s.stop && s2.mem == s.mem
    requires forall r: nat :: r < 15 ==>
      ReadR(s2, r) == (if r == rd then m.items[0] else if r == rn then top - 4 * |m.items| + 4 else ReadR(s, r))
    ensures Represents(s0, s2, AbstractAct(m, rn, Pop(rd)), rn, top, room)
  {
    hide ReadR, Load;
    var m' := AbstractAct(m, rn, Pop(rd));
    forall k: nat | k < |m'.items|
      ensures Load(s.mem, top - 4 * |m'.items| + 4 * k, W4) == m'.items[k]
    {
      assert Load(s.mem, top - 4 * |m.items| + 4 * (k + 1), W4) == m.items[k + 1];
    }
  }

  /** Any allowed sequence of pushes and pops on the machine is the stack's: every
      register, popped values included, the words on the stack and the base agree, and
      memory from the first base upwards, and below the room, is untouched. */
  lemma {:induction false} StackSimulation(b: Build, s0: State, s: State, m: Abstract, cond: Low, rn: Low,
                                           acts: seq<Act>, top: Word, room: nat)
    requires Represents(s0, s, m, rn, top, room) && Condition(Cpsr(s0), cond)
    requires Allowed(acts, rn, |m.items|, room)
    ensures Represents(s0, MachineRun(b, s, cond, rn, acts), AbstractRun(m, rn, acts, room), rn, top, room)
    decreases |acts|
  {
    hide Condition;
    if acts != [] {
      var act := acts[0];
      DispatchedActs(b, s, cond, rn, act);
      match act {
        case Push(rd) => PushRepresented(b, s0, s, m, rn, top, room, rd);
        case Pop(rd) => PopRepresented(b, s0, s, m, rn, top, room, rd);
      }
      hide Represents, Acted, Dispatched, Encoded;
      StackSimulation(b, s0, Acted(b, s, rn, act), AbstractAct(m, rn, act), cond, rn, acts[1..], top, room);
    }
  }

  /** Matching every push with a pop. */
  predicate Balanced(acts: seq<Act>, depth: nat) {
    if acts == [] then depth == 0
    else if acts[0].Push? then Balanced(acts[1..], depth + 1)
    else depth > 0 && Balanced(acts[1..], depth - 1)
  }

  /** A balanced sequence, started with depth words to pop, pops just those. */
  lemma {:induction false} BalancedPops(m: Abstract, rn: Low, acts: seq<Act>, depth: nat, room: nat)
    requires |m.view| == 15 && Allowed(acts, rn, |m.items|, room) && Balanced(acts, depth) && depth <= |m.items|
    ensures AbstractRun(m, rn, acts, room).items == m.items[depth..]
    decreases |acts|
  {
    if acts != [] {
      BalancedPops(AbstractAct(m, rn, acts[0]), rn, acts[1..], if acts[0].Push? then depth + 1 else depth - 1, room);
    }
  }

  /** A pop after it finds the word below. */
  lemma {:induction false} PopAfter(m: Abstract, rn: Low, acts: seq<Act>, rd: Low, depth: nat, room: nat)
    requires |m.view| == 15 && Allowed(acts + [Pop(rd)], rn, |m.items|, room)
    requires Balanced(acts, depth) && depth < |m.items|
    ensures AbstractRun(m, rn, acts + [Pop(rd)], room).view[rd] == m.items[depth]
    ensures AbstractRun(m, rn, acts + [Pop(rd)], room).items == m.items[depth + 1..]
    decreases |acts|
  {
    if acts == [] {
      assert acts + [Pop(rd)] == [Pop(rd)];
      assert [Pop(rd)][1..] == [];
    } else {
      assert (acts + [Pop(rd)])[1..] == acts[1..] + [Pop(rd)];
      PopAfter(AbstractAct(m, rn, acts[0]), rn, acts[1..], rd, if acts[0].Push? then depth + 1 else depth - 1, room);
    }
  }

  /** The order of a stack: a push of r1, anything balanced, and a pop to r2, at any
      depth, bring r1's word to r2 and the base back. */
  lemma BracketReturns(b: Build, s0: State, s: State, m: Abstract, cond: Low, rn: Low,
                       acts: seq<Act>, r1: Low, r2: Low, top: Word, room: nat)
    requires Represents(s0, s, m, rn, top, room) && Condition(Cpsr(s0), cond)
    requires Allowed([Push(r1)] + (acts + [Pop(r2)]), rn, |m.items|, room) && Balanced(acts, 0)
    ensures var s' := MachineRun(b, s, cond, rn, [Push(r1)] + (acts + [Pop(r2)]));
      ReadR(s', r2) == ReadR(s, r1) && ReadR(s', rn) == ReadR(s, rn)
  {
    var all := [Push(r1)] + (acts + [Pop(r2)]);
    StackSimulation(b, s0, s, m, cond, rn, all, top, room);
    hide Condition, ReadR, MachineRun;
    assert all[0] == Push(r1) && all[1..] == acts + [Pop(r2)];
    PopAfter(AbstractAct(m, rn, Push(r1)), rn, acts, r2, 0, room);
  }

  /** A balanced sequence restores the base and leaves memory from it upwards alone. */
  lemma BalancedRestoresBase(b: Build, s: State, cond: Low, rn: Low, acts: seq<Act>, room: nat)
    requires s.stop == Running && Known(ModeOf(s)) && Condition(Cpsr(s), cond)
    requires Allowed(acts, rn, 0, room) && Balanced(acts, 0)
    requires ReadR(s, rn) % 4 == 0 && 4 * room <= ReadR(s, rn) <= |s.mem.bytes|
    ensures var s' := MachineRun(b, s, cond, rn, acts);
      && ReadR(s', rn) == ReadR(s, rn) && s'.stop == Running
      && |s'.mem.bytes| == |s.mem.bytes|
      && (forall a: nat :: ReadR(s, rn) <= a < |s.mem.bytes| ==> s'.mem.bytes[a] == s.mem.bytes[a])
  {
    hide Condition, ReadR;
    var top := ReadR(s, rn);
    var m := Abstract(seq(15, (r: nat) => ReadR(s, r)), []);
    assert Represents(s, s, m, rn, top, room);
    StackSimulation(b, s, s, m, cond, rn, acts, top, room);
    BalancedPops(m, rn, acts, 0, room);
  }
}
