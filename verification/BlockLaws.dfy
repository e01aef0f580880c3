/** What a block store puts where, and that a block load brings it back. */
module BlockLaws {
  import opened Words
  import opened Builds
  import opened Registers
  import opened RegisterLaws
  import opened Memory
  import opened MemoryRuns
  import opened Core
  import opened Fields
  import opened Decode
  import opened BlockTransfer
  import opened StackLaws

  /** The place of register i in a block. */
  function Place(start: Word, list: nat, i: nat): nat {
    start + 4 * Count(list, i)
  }

  predicate Listed(list: nat, i: nat) {
    Bit(list, i) == 1
  }

  /** The block of a list lies in memory, in aligned words. */
  predicate Fits(m: Mem, start: Word, list: nat) {
    start % 4 == 0 && start + 4 * Count(list, 16) <= |m.bytes| && start + 4 * Count(list, 16) < 0x1_0000_0000
  }

  lemma {:induction false} CountMonotone(list: nat, i: nat, n: nat)
    requires i <= n
    ensures Count(list, i) <= Count(list, n)
    ensures i < n && Listed(list, i) ==> Count(list, i) < Count(list, n)
    decreases n
  {
    if i < n {
      CountMonotone(list, i, n - 1);
    }
    hide Bit;
  }

  /** A cursor on its way through a block that fits is running and in place. */
  lemma InPlace(start: Word, list: nat, n: nat, m: Mem)
    requires Fits(m, start, list) && n < 16 && Listed(list, n)
    ensures Trunc(Place(start, list, n)) == Place(start, list, n)
    ensures InRange(m, Trunc(Place(start, list, n)), W4)
  {
    hide Listed, Count;
    CountMonotone(list, n, 16);
    var p := Place(start, list, n);
    assert p % 4 == 0 && p + 4 <= |m.bytes|;
    SmallTrunc(p);
  }

  // ---------- stores ----------

  /** After the first n registers: the listed ones are in place, and nothing outside
      the places used so far has changed. */
  ghost predicate StoredBelow(s: State, s': State, ins: Word, start: Word, n: nat) {
    var list := RegisterList(ins);
    && s'.regs == s.regs && s'.stop == s.stop && |s'.mem.bytes| == |s.mem.bytes| && s'.mem.big == s.mem.big
    && Place(start, list, n) <= |s.mem.bytes|
    && (forall i: nat :: i < n && Listed(list, i) ==>
          Place(start, list, i) + 4 <= |s.mem.bytes|
          && Load(s'.mem, Place(start, list, i), W4) == StoredValue(s, ins, i))
    && (forall a: nat :: a < |s.mem.bytes| && !(start <= a < Place(start, list, n)) ==>
          s'.mem.bytes[a] == s.mem.bytes[a])
  }

  lemma StoreExtends(s: State, s': State, ins: Word, start: Word, n: nat)
    requires n < 16 && Fits(s.mem, start, RegisterList(ins)) && Listed(RegisterList(ins), n)
    requires StoredBelow(s, s', ins, start, n)
    ensures Place(start, RegisterList(ins), n) + 4 <= |s.mem.bytes|
    ensures StoredBelow(s, s'.(mem := Store(s'.mem, Place(start, RegisterList(ins), n), W4, StoredValue(s, ins, n))),
                        ins, start, n + 1)
  {
    hide Store, Load, StoredValue, RegisterList;
    var list := RegisterList(ins);
    InPlace(start, list, n, s.mem);
    var p, v := Place(start, list, n), StoredValue(s, ins, n);
    assert Place(start, list, n + 1) == p + 4;
    hide Fits;
    var mem := Store(s'.mem, p, W4, v);
    forall i: nat | i < n + 1 && Listed(list, i)
      ensures Place(start, list, i) + 4 <= |s.mem.bytes|
      ensures Load(mem, Place(start, list, i), W4) == StoredValue(s, ins, i)
    {
      if i == n {
        LoadStored(s'.mem, p, W4, v);
      } else {
        CountMonotone(list, i, n);
        LoadElsewhere(s'.mem, p, W4, v, Place(start, list, i), W4);
      }
    }
    forall a: nat | a < |s.mem.bytes| && !(start <= a < p + 4)
      ensures mem.bytes[a] == s.mem.bytes[a]
    {
      StoredByte(s'.mem, p, W4, v, a);
    }
  }

  lemma {:induction false} StoresInPlace(s: State, ins: Word, start: Word, junk: Word, n: nat)
    requires n <= 16 && s.stop == Running && Fits(s.mem, start, RegisterList(ins))
    ensures var c := StoreUpTo(Cursor(s, start, junk), ins, n);
      c.address == Trunc(Place(start, RegisterList(ins), n)) && StoredBelow(s, c.s, ins, start, n)
  {
    hide Bit, Load, StoredValue, StoreOne, RegisterList, Trunc;
    StoreAddress(Cursor(s, start, junk), ins, n);
    if n > 0 {
      StoresInPlace(s, ins, start, junk, n - 1);
      var d := StoreUpTo(Cursor(s, start, junk), ins, n - 1);
      StoreStep(s, d, ins, start, n - 1);
    } else {
      FitsAtStart(s.mem, start, RegisterList(ins));
    }
    hide Fits;
  }

  lemma FitsAtStart(m: Mem, start: Word, list: nat)
    requires Fits(m, start, list)
    ensures Place(start, list, 0) == start <= |m.bytes|
  {
  }

  lemma StoreStep(s: State, d: Cursor, ins: Word, start: Word, n: nat)
    requires n < 16 && s.stop == Running && Fits(s.mem, start, RegisterList(ins))
    requires d.address == Trunc(Place(start, RegisterList(ins), n)) && StoredBelow(s, d.s, ins, start, n)
    ensures StoredBelow(s, StoreOne(d, ins, n).s, ins, start, n + 1)
  {
    var list := RegisterList(ins);
    if Listed(list, n) {
      InPlace(start, list, n, s.mem);
      InPlace(start, list, n, d.s.mem);
      StoreExtends(s, d.s, ins, start, n);
      SameRegisters(s, d.s, ins, n);
      assert StoreOne(d, ins, n).s ==
        d.s.(mem := Store(d.s.mem, Place(start, list, n), W4, StoredValue(s, ins, n)));
    } else {
      assert Place(start, list, n + 1) == Place(start, list, n);
    }
    hide Bit, Store, Load, StoredValue, RegisterList, Fits, Count;
  }

  lemma SameRegisters(s: State, s': State, ins: Word, i: nat)
    requires s'.regs == s.regs
    ensures StoredValue(s', ins, i) == StoredValue(s, ins, i)
  {
  }

  /** STM with any list, mode and base whose block fits: register i of the list is at
      start + 4 times the number of listed registers below i, and nothing outside the
      block changes. */
  lemma StoreMultiple(b: Build, s: State, ins: Word)
    requires s.stop == Running && Bit20(ins) == 0 && Condition(Cpsr(s), Cond(ins))
    requires Fits(s.mem, StartAddress(b, s, ins), RegisterList(ins))
    ensures StoredBelow(Rebased(b, s, ins), Multiple(b, s, ins), ins, StartAddress(b, s, ins), 16)
  {
    hide Condition, Cond, StartAddress, RegisterList, StoredBelow, NewBase, StoreUpTo, LoadUpTo;
    StoresInPlace(Rebased(b, s, ins), ins, StartAddress(b, s, ins), b.host.junk, 16);
  }

  // ---------- loads ----------

  /** After the first n registers: the listed ones hold the words in place, the others
      and memory are unchanged. */
  ghost predicate LoadedBelow(s: State, s': State, list: nat, start: Word, n: nat) {
    && s'.mem == s.mem && s'.stop == s.stop && Cpsr(s') == Cpsr(s)
    && (forall i: nat :: i < 15 ==>
          if i < n && Listed(list, i)
          then Place(start, list, i) + 4 <= |s.mem.bytes| && ReadR(s', i) == Load(s.mem, Place(start, list, i), W4)
          else ReadR(s', i) == ReadR(s, i))
  }

  lemma {:induction false} LoadsInPlace(b: Build, s: State, list: nat, start: Word, junk: Word, n: nat)
    requires n <= 15 && s.stop == Running && Known(ModeOf(s)) && Fits(s.mem, start, list)
    ensures var c := LoadUpTo(b, Cursor(s, start, junk), list, n);
      c.address == Trunc(Place(start, list, n)) && LoadedBelow(s, c.s, list, start, n)
  {
    hide Bit, Load, ReadR, LoadOne, Trunc, Cpsr, Fits, Known;
    LoadAddress(b, Cursor(s, start, junk), list, n);
    if n > 0 {
      LoadsInPlace(b, s, list, start, junk, n - 1);
      LoadStep(b, s, LoadUpTo(b, Cursor(s, start, junk), list, n - 1), list, start, n - 1);
    }
  }

  lemma LoadStep(b: Build, s: State, d: Cursor, list: nat, start: Word, n: nat)
    requires n < 15 && s.stop == Running && Known(ModeOf(s)) && Fits(s.mem, start, list)
    requires d.address == Trunc(Place(start, list, n)) && LoadedBelow(s, d.s, list, start, n)
    ensures LoadedBelow(s, LoadOne(b, d, list, n).s, list, start, n + 1)
  {
    if Listed(list, n) {
      InPlace(start, list, n, s.mem);
      var v := Load(s.mem, Place(start, list, n), W4);
      ReadsAfterWrite(b, d.s, n, v);
      assert LoadOne(b, d, list, n).s == WriteR(b, d.s, n, v);
    }
    hide Bit, Load, ReadR, WriteR, Fits, Count;
  }

  /** The cursor of a load after R0 to R14. */
  function AfterLow(b: Build, s: State, ins: Word): Cursor {
    LoadUpTo(b, Cursor(Rebased(b, s, ins), StartAddress(b, s, ins), b.host.junk), RegisterList(ins), 15)
  }

  lemma LowLoaded(b: Build, s: State, ins: Word)
    requires s.stop == Running && Known(ModeOf(s)) && Bit20(ins) == 1
    requires Condition(TestedCpsr(s, ins), Cond(ins))
    requires Fits(s.mem, StartAddress(b, s, ins), RegisterList(ins))
    ensures var d := AfterLow(b, s, ins);
      && LoadedBelow(Rebased(b, s, ins), d.s, RegisterList(ins), StartAddress(b, s, ins), 15)
      && d.address == Trunc(Place(StartAddress(b, s, ins), RegisterList(ins), 15))
      && d.s.stop == Running && ModeOf(d.s) == ModeOf(s) && d.s.mem == s.mem
      && Multiple(b, s, ins) == LoadPc(b, d, ins)
  {
    RebasedKeeps(b, s, ins);
    hide Condition, Cond, StartAddress, RegisterList, Rebased, StoreUpTo, LoadUpTo, TestedCpsr, LoadPc, ReadR;
    hide Load, Trunc;
    LoadsInPlace(b, Rebased(b, s, ins), RegisterList(ins), StartAddress(b, s, ins), b.host.junk, 15);
  }

  /** LDM of a list whose block fits: the listed ones of R0 to R14 receive the words in
      place, the others, the CPSR and memory are kept. */
  lemma LoadMultiple(b: Build, s: State, ins: Word)
    requires s.stop == Running && Known(ModeOf(s)) && Bit20(ins) == 1
    requires Condition(TestedCpsr(s, ins), Cond(ins))
    requires Fits(s.mem, StartAddress(b, s, ins), RegisterList(ins))
    ensures LoadedBelow(Rebased(b, s, ins), Multiple(b, s, ins), RegisterList(ins), StartAddress(b, s, ins), 15)
  {
    hide LoadedBelow, LoadPc, Multiple, Rebased, AfterLow, StartAddress, RegisterList, Fits, Condition, Cond;
    hide TestedCpsr;
    LowLoaded(b, s, ins);
    PcLoads(b, AfterLow(b, s, ins), ins, s.mem, StartAddress(b, s, ins));
    LowKept(Rebased(b, s, ins), AfterLow(b, s, ins).s, Multiple(b, s, ins), RegisterList(ins), StartAddress(b, s, ins));
  }

  /** Loading the PC, or not, keeps the other registers, and the word is in memory. */
  lemma PcLoads(b: Build, d: Cursor, ins: Word, m: Mem, start: Word)
    requires d.s.stop == Running && d.s.mem == m && Known(ModeOf(d.s)) && Fits(m, start, RegisterList(ins))
    requires d.address == Trunc(Place(start, RegisterList(ins), 15))
    ensures KeepsLow(d.s, LoadPc(b, d, ins))
    ensures Listed(RegisterList(ins), 15) && !NoSpsr(d.s, ins) ==>
      && Place(start, RegisterList(ins), 15) + 4 <= |m.bytes|
      && LoadPc(b, d, ins).regs[PC] == if Bit22(ins) == 1 then Load(m, Place(start, RegisterList(ins), 15), W4) else 0
  {
    hide Load, RegisterList, Bit22, Trunc, Fits;
    if Listed(RegisterList(ins), 15) {
      InPlace(start, RegisterList(ins), 15, m);
      var v := Load(m, Place(start, RegisterList(ins), 15), W4);
      assert Peek(d.s, d.address, W4) == Value(v);
      PcWritten(b, d.s, if Bit22(ins) == 1 then v else 0);
      hide Place, Listed;
    }
    hide Bit, WriteR, Peek, KeepsLow, ReadR;
    NothingWritten(d.s);
  }

  /** R0 to R14, the CPSR, memory and running on are as they were. */
  ghost predicate KeepsLow(s: State, s': State) {
    && s'.mem == s.mem && s'.stop == s.stop && Cpsr(s') == Cpsr(s)
    && forall i: nat :: i < 15 ==> ReadR(s', i) == ReadR(s, i)
  }

  lemma NothingWritten(s: State)
    ensures KeepsLow(s, s)
  {
  }

  lemma PcWritten(b: Build, s: State, value: Word)
    ensures KeepsLow(s, WriteR(b, s, PC, value)) && WriteR(b, s, PC, value).regs[PC] == value
  {
  }

  lemma LowKept(s: State, d: State, s': State, list: nat, start: Word)
    requires LoadedBelow(s, d, list, start, 15) && KeepsLow(d, s')
    ensures LoadedBelow(s, s', list, start, 15)
  {
    hide ReadR, Load, Listed, Place;
  }

  /** The word a load has for the PC. */
  function PcWord(b: Build, s: State, ins: Word): Word
    requires Listed(RegisterList(ins), 15) && Fits(s.mem, StartAddress(b, s, ins), RegisterList(ins))
  {
    InPlace(StartAddress(b, s, ins), RegisterList(ins), 15, s.mem);
    Load(s.mem, Place(StartAddress(b, s, ins), RegisterList(ins), 15), W4)
  }

  /** LDM with the PC in the list. Without S the PC should receive its word with bit 0
      cleared; line 157 puts the status there, so it does exactly for words 0 and 1. With
      S, in a mode with an SPSR, the PC receives its word, but the CPSR, which should
      receive the SPSR, is kept. */
  lemma LoadedPcExact(b: Build, s: State, ins: Word)
    requires s.stop == Running && Known(ModeOf(s)) && Bit20(ins) == 1
    requires Condition(TestedCpsr(s, ins), Cond(ins)) && Listed(RegisterList(ins), 15)
    requires Fits(s.mem, StartAddress(b, s, ins), RegisterList(ins)) && !NoSpsr(s, ins)
    ensures var w, s' := PcWord(b, s, ins), Multiple(b, s, ins);
      && (Bit22(ins) == 0 ==> s'.regs[PC] == 0 && (s'.regs[PC] == w - w % 2 <==> w <= 1))
      && (Bit22(ins) == 1 ==> s'.regs[PC] == w && Cpsr(s') == Cpsr(s))
  {
    hide LoadPc, Multiple, Rebased, AfterLow, StartAddress, RegisterList, Fits, Condition, Cond, TestedCpsr;
    hide Listed, Place, ReadR, Load, Bit22;
    RebasedKeeps(b, s, ins);
    LowLoaded(b, s, ins);
    PcLoads(b, AfterLow(b, s, ins), ins, s.mem, StartAddress(b, s, ins));
  }

  lemma RebasedKeeps(b: Build, s: State, ins: Word)
    ensures var s1 := Rebased(b, s, ins);
      s1.mem == s.mem && s1.stop == s.stop && Cpsr(s1) == Cpsr(s) && ModeOf(s1) == ModeOf(s)
  {
    WriteKeepsCpsr(b.loneBank, s.regs, Rn(ins), NewBase(b, s, ins));
    hide Write;
  }

  // ---------- store, then load ----------

  /** Two lists of as many registers, and two registers at the same place in them. */
  predicate Correspond(from: nat, to: nat, i: nat, k: nat) {
    && Count(from, 16) == Count(to, 16)
    && i < 15 && k < 15 && Listed(from, i) && Listed(to, k) && Count(from, i) == Count(to, k)
  }

  /** A load of a list over R0 to R14, from where a list as long was stored without S,
      hands each stored register to the loaded one at the same place in its list, and
      with the same list brings every register back, whatever the registers hold by
      then. As written, where the base is the number of Rn, the same fields give the
      same start. */
  lemma StoreThenLoad(b: Build, s: State, stm: Word, later: State, ldm: Word, i: nat, k: nat)
    requires s.stop == Running && Bit20(stm) == 0 && Bit22(stm) == 0 && Condition(Cpsr(s), Cond(stm))
    requires later.stop == Running && Known(ModeOf(later)) && Bit20(ldm) == 1
    requires Condition(TestedCpsr(later, ldm), Cond(ldm))
    requires StartAddress(b, later, ldm) == StartAddress(b, s, stm)
    requires Fits(s.mem, StartAddress(b, s, stm), RegisterList(stm))
    requires later.mem == Multiple(b, s, stm).mem
    requires Correspond(RegisterList(stm), RegisterList(ldm), i, k)
    ensures ReadR(Multiple(b, later, ldm), k) == ReadR(Rebased(b, s, stm), i)
  {
    hide Condition, Cond, StartAddress, RegisterList, Multiple, Rebased, TestedCpsr, ReadR, Load, Listed, Count, Known;
    StoreMultiple(b, s, stm);
    RebasedKeeps(b, s, stm);
    RebasedKeeps(b, later, ldm);
    assert |later.mem.bytes| == |s.mem.bytes|;
    LoadMultiple(b, later, ldm);
    assert StoredValue(Rebased(b, s, stm), stm, i) == ReadR(Rebased(b, s, stm), i);
    hide StoredValue;
  }

  /** With the base value, sense and writeback repaired, a load with the opposite P and
      U bits undoes a store: DB and IA, IB and DA, IA and DB, DA and IB. */
  lemma StoreLoadPair(b: Build, s: State, stm: Word, later: State, ldm: Word, i: nat, k: nat)
    requires b.baseValue
    requires s.stop == Running && Known(ModeOf(s)) && Condition(Cpsr(s), Cond(stm))
    requires Bit20(stm) == 0 && Bit22(stm) == 0
    requires later.stop == Running && ModeOf(later) == ModeOf(s) && Bit20(ldm) == 1
    requires Condition(Cpsr(later), Cond(ldm))
    requires Opposed(stm, ldm) && !Listed(RegisterList(ldm), Rn(ldm))
    requires ReadR(later, Rn(stm)) == ReadR(Multiple(b, s, stm), Rn(stm)) && later.mem == Multiple(b, s, stm).mem
    requires Fits(s.mem, StartAddress(b, s, stm), RegisterList(stm))
    requires Correspond(RegisterList(stm), RegisterList(ldm), i, k) && i != Rn(stm)
    ensures ReadR(Multiple(b, later, ldm), k) == ReadR(s, i)
    ensures ReadR(Multiple(b, later, ldm), Rn(stm)) == ReadR(s, Rn(stm))
  {
    hide Condition, Cond, StartAddress, RegisterList, Multiple, Rebased, ReadR, Listed, NewBase, Count, Known;
    assert TestedCpsr(later, ldm) == Cpsr(later);
    PairBases(b, s, stm, later, ldm);
    StoreThenLoad(b, s, stm, later, ldm, i, k);
    RebasedReads(b, s, stm, i);
    StoreKeepsSize(b, s, stm);
    LoadedBase(b, later, ldm);
  }

  /** Two transfers of as many registers on one base, both with writeback, with the
      opposite P and U bits. */
  predicate Opposed(stm: Word, ldm: Word) {
    && Bit21(stm) == 1 && Bit21(ldm) == 1 && Rn(ldm) == Rn(stm) < 15
    && Bit24(ldm) == 1 - Bit24(stm) && Bit23(ldm) == 1 - Bit23(stm)
    && Count(RegisterList(ldm), 16) == Count(RegisterList(stm), 16)
  }

  lemma StoreKeepsSize(b: Build, s: State, ins: Word)
    requires s.stop == Running && Bit20(ins) == 0 && Condition(Cpsr(s), Cond(ins))
    requires Fits(s.mem, StartAddress(b, s, ins), RegisterList(ins))
    ensures |Multiple(b, s, ins).mem.bytes| == |s.mem.bytes|
    ensures Multiple(b, s, ins).regs == Rebased(b, s, ins).regs
  {
    StoreMultiple(b, s, ins);
    RebasedKeeps(b, s, ins);
    hide Condition, Cond, StartAddress, RegisterList, Multiple, Rebased;
  }

  /** A writeback moves the base and no other register. */
  lemma RebasedReads(b: Build, s: State, ins: Word, i: nat)
    requires Known(ModeOf(s)) && Rn(ins) < 15 && i < 15
    ensures ReadR(Rebased(b, s, ins), i) ==
      if b.baseValue && Bit21(ins) == 1 && i == Rn(ins) then NewBase(b, s, ins) else ReadR(s, i)
  {
    ReadsAfterWrite(b, s, Rn(ins), NewBase(b, s, ins));
    hide ReadR, WriteR, NewBase, Rn;
  }

  lemma LoadedBase(b: Build, s: State, ins: Word)
    requires b.baseValue && s.stop == Running && Known(ModeOf(s)) && Bit20(ins) == 1 && Bit21(ins) == 1
    requires Condition(TestedCpsr(s, ins), Cond(ins))
    requires Fits(s.mem, StartAddress(b, s, ins), RegisterList(ins))
    requires Rn(ins) < 15 && !Listed(RegisterList(ins), Rn(ins))
    ensures ReadR(Multiple(b, s, ins), Rn(ins)) == NewBase(b, s, ins)
  {
    LoadMultiple(b, s, ins);
    RebasedReads(b, s, ins, Rn(ins));
    hide Condition, Cond, StartAddress, RegisterList, Multiple, Rebased, TestedCpsr, ReadR, Load, Listed, NewBase;
  }

  /** The load starts where the store did and moves the base back. */
  lemma PairBases(b: Build, s: State, stm: Word, later: State, ldm: Word)
    requires b.baseValue && s.stop == Running && Known(ModeOf(s))
    requires Bit20(stm) == 0 && Condition(Cpsr(s), Cond(stm))
    requires Opposed(stm, ldm)
    requires ReadR(later, Rn(stm)) == ReadR(Multiple(b, s, stm), Rn(stm))
    requires Fits(s.mem, StartAddress(b, s, stm), RegisterList(stm))
    ensures StartAddress(b, later, ldm) == StartAddress(b, s, stm)
    ensures NewBase(b, later, ldm) == ReadR(s, Rn(stm))
  {
    hide Multiple, Rebased, Count, RegisterList, ReadR, Condition, Cond, Fits, StoredBelow, Known, Trunc, Rn;
    StoreKeepsSize(b, s, stm);
    RebasedReads(b, s, stm, Rn(stm));
    SameReads(Multiple(b, s, stm), Rebased(b, s, stm), Rn(stm));
    var n := 4 * Count(RegisterList(stm), 16);
    PairedModes(ReadR(s, Rn(stm)), n, Bit23(stm), Bit24(stm));
  }

  /** Section A5.4: where a block of n bytes starts and where the base goes, by the U
      and P bits, U set meaning increment. */
  function StartOf(base: int, n: nat, up: Flag, before: Flag): Word {
    if up == 0 then Trunc(base - n + (if before == 1 then 0 else 4))
    else Trunc(base + (if before == 1 then 4 else 0))
  }

  function MovedBase(base: int, n: nat, up: Flag): Word {
    if up == 0 then Trunc(base - n) else Trunc(base + n)
  }

  lemma PairedModes(base: Word, n: nat, up: Flag, before: Flag)
    ensures StartOf(MovedBase(base, n, up), n, 1 - up, 1 - before) == StartOf(base, n, up, before)
    ensures MovedBase(MovedBase(base, n, up), n, 1 - up) == base
  {
    hide Trunc;
    SmallTrunc(base);
    if up == 0 {
      TruncSum(base - n, n);
      TruncSum(base - n, 4);
      TruncSum(base - n, 0);
    } else {
      TruncSum(base + n, -(n as int));
      TruncSum(base + n, 4 - n);
    }
  }

  lemma SameReads(s: State, s': State, reg: nat)
    requires s.regs == s'.regs
    ensures ReadR(s, reg) == ReadR(s', reg)
  {
  }

  // ---------- the base as written ----------

  /** As written, with the number of Rn for the base and U reversed, a transfer starts
      where section A5.4 puts it exactly for one value of the base register. */
  lemma WrittenStartExact(b: Build, s: State, ins: Word)
    requires !b.baseValue
    ensures var n := 4 * Count(RegisterList(ins), 16);
      var e := if Bit24(ins) == 1 then n + 4 else n - 4;
      StartAddress(b, s, ins) == StartOf(ReadR(s, Rn(ins)), n, Bit23(ins), Bit24(ins))
      <==> ReadR(s, Rn(ins)) == Trunc(if Bit23(ins) == 1 then Rn(ins) - e else Rn(ins) + e)
  {
    hide Count, RegisterList, ReadR, Rn, Bit23, Bit24, Trunc;
    var n := 4 * Count(RegisterList(ins), 16);
    StartsMeet(Rn(ins), ReadR(s, Rn(ins)), n, Bit23(ins), Bit24(ins));
  }

  lemma StartsMeet(base: Word, value: Word, n: nat, up: Flag, before: Flag)
    requires n <= 64
    ensures var e := if before == 1 then n + 4 else n - 4;
      StartOf(base, n, 1 - up, before) == StartOf(value, n, up, before)
      <==> value == Trunc(if up == 1 then base - e else base + e)
  {
    SmallTrunc(value);
    var f: int := if before == 1 then 4 else 0;
    if up == 1 {
      TruncCancel(base - n + 4 - f, value + f, -f);
    } else {
      TruncCancel(base + f, value - n + 4 - f, n - 4 + f);
    }
    hide Trunc;
  }

  lemma TruncCancel(x: int, y: int, k: int)
    ensures Trunc(x) == Trunc(y) <==> Trunc(x + k) == Trunc(y + k)
  {
    TruncSum(x, k);
    TruncSum(y, k);
    TruncSum(x + k, -k);
    TruncSum(y + k, -k);
    hide Trunc;
  }

  // ---------- a store and a load as written ----------

  /** As written the number of Rn is the base of both, so a load with the opposite P and
      U bits, meant to start where the store did, does so exactly for empty lists: its
      block lies next to the stored one. */
  lemma WrittenPairStart(b: Build, s: State, stm: Word, later: State, ldm: Word)
    requires !b.baseValue && Opposed(stm, ldm)
    ensures StartAddress(b, later, ldm) == StartAddress(b, s, stm) <==> Count(RegisterList(stm), 16) == 0
    ensures var n := 4 * Count(RegisterList(stm), 16);
      || StartAddress(b, later, ldm) == Trunc(StartAddress(b, s, stm) + n)
      || StartAddress(b, s, stm) == Trunc(StartAddress(b, later, ldm) + n)
  {
    hide Count, RegisterList, Rn, Bit21, Bit23, Bit24, Trunc;
    NextBlock(Rn(stm), 4 * Count(RegisterList(stm), 16), if Bit24(stm) == Bit23(stm) then 0 else 4);
  }

  /** Where the two transfers start, the one that decrements first. */
  lemma NextBlock(base: nat, n: nat, f: nat)
    requires n <= 64
    ensures Trunc(base - n + f) == Trunc(base + f) <==> n == 0
    ensures Trunc(base + f) == Trunc(Trunc(base - n + f) + n)
  {
  }

  /** Writing no base back is right exactly for empty lists, whatever becomes of the
      transfer; a load that has the base in its list replaces it anyway. */
  lemma WrittenWritebackExact(b: Build, s: State, ins: Word)
    requires !b.baseValue && Condition(TestedCpsr(s, ins), Cond(ins))
    requires Bit20(ins) == 1 ==> Known(ModeOf(s)) && !Listed(RegisterList(ins), Rn(ins))
    ensures ReadR(Multiple(b, s, ins), Rn(ins)) == ReadR(s, Rn(ins))
    ensures var n := 4 * Count(RegisterList(ins), 16);
      ReadR(Multiple(b, s, ins), Rn(ins)) == MovedBase(ReadR(s, Rn(ins)), n, Bit23(ins)) <==> n == 0
  {
    RnBelow(ins);
    hide Condition, Cond, StartAddress, RegisterList, ReadR, Count, Trunc, TestedCpsr, Rn, LoadUpTo, StoreUpTo;
    var c := Cursor(s, StartAddress(b, s, ins), b.host.junk);
    if Bit20(ins) == 0 {
      StoresKeepRegisters(c, ins, 16);
      SameReads(Multiple(b, s, ins), s, Rn(ins));
    } else {
      LoadsKeepOthers(b, c, RegisterList(ins), 15, Rn(ins));
      PcKeepsOthers(b, LoadUpTo(b, c, RegisterList(ins), 15), ins, Rn(ins));
    }
    hide Multiple, Listed, LoadPc;
    MovesAway(ReadR(s, Rn(ins)), 4 * Count(RegisterList(ins), 16), Bit23(ins));
  }

  lemma {:induction false} StoresKeepRegisters(c: Cursor, ins: Word, n: nat)
    ensures StoreUpTo(c, ins, n).s.regs == c.s.regs
  {
    hide Bit, RegisterList, StoredValue, Refused, Overruns, Store;
    if n > 0 {
      StoresKeepRegisters(c, ins, n - 1);
    }
  }

  /** A register that is not in the list keeps its value, refused and overrunning reads
      included. */
  lemma {:induction false} LoadsKeepOthers(b: Build, c: Cursor, list: nat, n: nat, r: nat)
    requires n <= 15 && r <= 15 && Known(ModeOf(c.s)) && !Listed(list, r)
    ensures var d := LoadUpTo(b, c, list, n);
      ReadR(d.s, r) == ReadR(c.s, r) && Cpsr(d.s) == Cpsr(c.s) && d.s.mem == c.s.mem
    decreases n
  {
    hide Listed, ReadR, LoadOne;
    if n > 0 {
      LoadsKeepOthers(b, c, list, n - 1, r);
      OneKeepsOthers(b, LoadUpTo(b, c, list, n - 1), list, n - 1, r);
    }
  }

  lemma OneKeepsOthers(b: Build, d: Cursor, list: nat, i: nat, r: nat)
    requires i < 15 && r <= 15 && Known(ModeOf(d.s)) && !Listed(list, r)
    ensures var e := LoadOne(b, d, list, i);
      ReadR(e.s, r) == ReadR(d.s, r) && Cpsr(e.s) == Cpsr(d.s) && e.s.mem == d.s.mem
  {
    OtherKept(b, d.s, i, d.value, r);
    var read := Peek(d.s, d.address, W4);
    if read.Value? {
      OtherKept(b, d.s, i, read.value, r);
    }
    StopKeeps(d.s, r);
    hide Bit, ReadR, Peek, WriteR;
  }

  lemma OtherKept(b: Build, s: State, i: nat, v: Word, r: nat)
    requires Known(ModeOf(s)) && i <= 15 && r <= 15
    ensures Cpsr(WriteR(b, s, i, v)) == Cpsr(s) && WriteR(b, s, i, v).mem == s.mem
    ensures r != i ==> ReadR(WriteR(b, s, i, v), r) == ReadR(s, r)
  {
    WriteKeepsCpsr(b.loneBank, s.regs, i, v);
    CellsFollowManual(ModeOf(s), i, ModeOf(s), r);
    hide PcSeen;
  }

  lemma StopKeeps(s: State, r: nat)
    ensures ReadR(s.(stop := Overrun), r) == ReadR(s, r)
  {
  }

  lemma PcKeepsOthers(b: Build, d: Cursor, ins: Word, r: nat)
    requires Known(ModeOf(d.s)) && r <= 15 && (r == 15 ==> !Listed(RegisterList(ins), r))
    ensures ReadR(LoadPc(b, d, ins), r) == ReadR(d.s, r)
  {
    StopKeeps(d.s, r);
    if r < 15 {
      forall v: Word ensures ReadR(WriteR(b, d.s, 15, v), r) == ReadR(d.s, r) {
        OtherKept(b, d.s, 15, v, r);
      }
    }
    hide ReadR, WriteR, Peek, Bit, RegisterList, Bit22, NoSpsr;
  }

  lemma MovesAway(base: Word, n: nat, up: Flag)
    requires n <= 64
    ensures MovedBase(base, n, up) == base <==> n == 0
  {
  }

  /** What the local of the loading loop holds after the first n registers: the last
      word that could be read, or what it held before. */
  function LastRead(m: Mem, start: Word, list: nat, n: nat, junk: Word): Word {
    if n == 0 then junk
    else
      var a := Trunc(Place(start, list, n - 1));
      if Listed(list, n - 1) && InRange(m, a, W4) then Load(m, a, W4) else LastRead(m, start, list, n - 1, junk)
  }

  /** No access of the block leaves the array past the guard. */
  ghost predicate NeverOverruns(m: Mem, start: Word, list: nat) {
    forall i: nat :: i < 16 && Listed(list, i) ==> !Overruns(m, Trunc(Place(start, list, i)), W4)
  }

  /** LDM of any list from any start, refused places included: a listed register receives
      the word in its place, or what the local still holds. */
  lemma LoadAnywhere(b: Build, s: State, ins: Word, k: nat)
    requires s.stop == Running && Known(ModeOf(s)) && Bit20(ins) == 1 && k < 15
    requires Condition(TestedCpsr(s, ins), Cond(ins))
    requires NeverOverruns(s.mem, StartAddress(b, s, ins), RegisterList(ins))
    ensures ReadR(Multiple(b, s, ins), k) ==
      if Listed(RegisterList(ins), k)
      then LastRead(s.mem, StartAddress(b, s, ins), RegisterList(ins), k + 1, b.host.junk)
      else ReadR(Rebased(b, s, ins), k)
  {
    RebasedKeeps(b, s, ins);
    hide Condition, Cond, StartAddress, RegisterList, Rebased, StoreUpTo, LoadUpTo, TestedCpsr, LoadPc, ReadR, Load;
    hide LastRead, NeverOverruns, Listed;
    var c := Cursor(Rebased(b, s, ins), StartAddress(b, s, ins), b.host.junk);
    LoadsAnywhere(b, c, RegisterList(ins), 15, k);
    PcKeepsOthers(b, LoadUpTo(b, c, RegisterList(ins), 15), ins, k);
  }

  lemma {:induction false} LoadsAnywhere(b: Build, c: Cursor, list: nat, n: nat, k: nat)
    requires n <= 15 && k < 15 && c.s.stop == Running && Known(ModeOf(c.s))
    requires NeverOverruns(c.s.mem, c.address, list)
    ensures var d := LoadUpTo(b, c, list, n);
      && d.s.stop == Running && d.s.mem == c.s.mem && Cpsr(d.s) == Cpsr(c.s)
      && d.address == Trunc(Place(c.address, list, n)) && d.value == LastRead(c.s.mem, c.address, list, n, c.value)
      && ReadR(d.s, k) == if k < n && Listed(list, k) then LastRead(c.s.mem, c.address, list, k + 1, c.value)
                          else ReadR(c.s, k)
    decreases n
  {
    hide ReadR, Load, Trunc, Listed, NeverOverruns;
    LoadAddress(b, c, list, n);
    if n > 0 {
      LoadsAnywhere(b, c, list, n - 1, k);
      LoadsOne(b, LoadUpTo(b, c, list, n - 1), c.s.mem, c.address, list, n - 1, k);
    }
  }

  lemma LoadsOne(b: Build, d: Cursor, m: Mem, start: Word, list: nat, i: nat, k: nat)
    requires i < 15 && k < 15 && d.s.stop == Running && Known(ModeOf(d.s)) && d.s.mem == m
    requires NeverOverruns(m, start, list) && d.address == Trunc(Place(start, list, i))
    ensures var e := LoadOne(b, d, list, i);
      && e.s.stop == Running && e.s.mem == m && Cpsr(e.s) == Cpsr(d.s)
      && e.value == (if Listed(list, i) && InRange(m, d.address, W4) then Load(m, d.address, W4) else d.value)
      && ReadR(e.s, k) == if k == i && Listed(list, i) then e.value else ReadR(d.s, k)
  {
    hide ReadR, Load, Trunc, Count;
    assert Listed(list, i) ==> !Overruns(m, d.address, W4);
    hide NeverOverruns;
    var v := if InRange(m, d.address, W4) then Load(m, d.address, W4) else d.value;
    ReadsAfterWrite(b, d.s, i, v);
    hide WriteR, Bit;
  }

  /** Storing any list from any start leaves a word alone that is none of its places. */
  lemma {:induction false} StoresElsewhere(c: Cursor, ins: Word, n: nat, p: nat)
    requires p % 4 == 0 && p + 4 <= |c.s.mem.bytes|
    requires forall i: nat :: i < n && Listed(RegisterList(ins), i) ==>
      Trunc(Place(c.address, RegisterList(ins), i)) != p
    ensures var d := StoreUpTo(c, ins, n);
      && |d.s.mem.bytes| == |c.s.mem.bytes| && d.s.mem.big == c.s.mem.big
      && Load(d.s.mem, p, W4) == Load(c.s.mem, p, W4)
    decreases n
  {
    hide Load, Listed, RegisterList, Trunc, Count, StoreOne;
    if n > 0 {
      StoresElsewhere(c, ins, n - 1, p);
      StoreAddress(c, ins, n - 1);
      var d := StoreUpTo(c, ins, n - 1);
      if d.s.stop == Running {
        StoreOneElsewhere(d, ins, n - 1, p);
      }
    }
  }

  lemma StoreOneElsewhere(d: Cursor, ins: Word, i: nat, p: nat)
    requires p % 4 == 0 && p + 4 <= |d.s.mem.bytes| && (Listed(RegisterList(ins), i) ==> d.address != p)
    ensures var e := StoreOne(d, ins, i);
      && |e.s.mem.bytes| == |d.s.mem.bytes| && e.s.mem.big == d.s.mem.big
      && Load(e.s.mem, p, W4) == Load(d.s.mem, p, W4)
  {
    hide Load, Bit, RegisterList, StoredValue, Store;
    if Listed(RegisterList(ins), i) && InRange(d.s.mem, d.address, W4) {
      LoadElsewhere(d.s.mem, d.address, W4, StoredValue(d.s, ins, i), p, W4);
    }
  }

  /** So the load sees nothing of the store, whatever the list and the number of Rn, and
      where the two blocks wrap or leave memory too: each listed register receives the
      word that lay in its place before the store, if the place is a word of memory, and
      otherwise what the uninitialised local, or the last such word, left there. */
  lemma WrittenPairExact(b: Build, s: State, stm: Word, later: State, ldm: Word, k: nat)
    requires !b.baseValue && Opposed(stm, ldm)
    requires s.stop == Running && Bit20(stm) == 0 && Condition(Cpsr(s), Cond(stm))
    requires later.stop == Running && Known(ModeOf(later)) && Bit20(ldm) == 1
    requires Condition(TestedCpsr(later, ldm), Cond(ldm)) && later.mem == Multiple(b, s, stm).mem
    requires NeverOverruns(s.mem, StartAddress(b, later, ldm), RegisterList(ldm))
    requires k < 15 && Listed(RegisterList(ldm), k)
    ensures ReadR(Multiple(b, later, ldm), k) ==
      LastRead(s.mem, StartAddress(b, later, ldm), RegisterList(ldm), k + 1, b.host.junk)
  {
    hide Condition, Cond, RegisterList, TestedCpsr, ReadR, Listed, StartAddress, LastRead, NeverOverruns, Opposed;
    var start, list := StartAddress(b, later, ldm), RegisterList(ldm);
    SizeKept(b, s, stm);
    SameOverruns(s.mem, later.mem, start, list);
    LoadAnywhere(b, later, ldm, k);
    forall i: nat | i < k + 1 && Listed(list, i) && InRange(s.mem, Trunc(Place(start, list, i)), W4)
      ensures Load(later.mem, Trunc(Place(start, list, i)), W4) == Load(s.mem, Trunc(Place(start, list, i)), W4)
    {
      PlaceKept(b, s, stm, later, ldm, i);
    }
    hide Multiple;
    SameLastRead(s.mem, later.mem, start, list, k + 1, b.host.junk);
  }

  lemma SizeKept(b: Build, s: State, stm: Word)
    requires !b.baseValue && s.stop == Running && Bit20(stm) == 0
    ensures var m := Multiple(b, s, stm).mem; |m.bytes| == |s.mem.bytes| && m.big == s.mem.big
  {
    hide Condition, Cond, RegisterList, StartAddress, StoreUpTo;
    StoresKeepSize(Cursor(s, StartAddress(b, s, stm), b.host.junk), stm, 16);
  }

  lemma {:induction false} StoresKeepSize(c: Cursor, ins: Word, n: nat)
    ensures var m := StoreUpTo(c, ins, n).s.mem; |m.bytes| == |c.s.mem.bytes| && m.big == c.s.mem.big
  {
    hide Bit, RegisterList, StoredValue, Refused, Store;
    if n > 0 {
      StoresKeepSize(c, ins, n - 1);
    }
  }

  lemma SameOverruns(m: Mem, m': Mem, start: Word, list: nat)
    requires NeverOverruns(m, start, list) && |m'.bytes| == |m.bytes|
    ensures NeverOverruns(m', start, list)
  {
    hide Listed, Trunc, Count;
    forall i: nat | i < 16 && Listed(list, i) ensures !Overruns(m', Trunc(Place(start, list, i)), W4) {
      assert !Overruns(m, Trunc(Place(start, list, i)), W4);
    }
  }

  lemma {:induction false} SameLastRead(m: Mem, m': Mem, start: Word, list: nat, n: nat, junk: Word)
    requires |m'.bytes| == |m.bytes|
    requires forall i: nat :: i < n && Listed(list, i) && InRange(m, Trunc(Place(start, list, i)), W4) ==>
      Load(m', Trunc(Place(start, list, i)), W4) == Load(m, Trunc(Place(start, list, i)), W4)
    ensures LastRead(m', start, list, n, junk) == LastRead(m, start, list, n, junk)
    decreases n
  {
    hide Listed, Trunc, Load, Place;
    if n > 0 {
      SameLastRead(m, m', start, list, n - 1, junk);
    }
  }

  /** A place of the loading block is none of the storing block. */
  lemma PlaceKept(b: Build, s: State, stm: Word, later: State, ldm: Word, i: nat)
    requires !b.baseValue && Opposed(stm, ldm)
    requires s.stop == Running && Bit20(stm) == 0 && Condition(Cpsr(s), Cond(stm))
    requires later.mem == Multiple(b, s, stm).mem && |later.mem.bytes| == |s.mem.bytes|
    requires i < 16 && Listed(RegisterList(ldm), i)
    requires InRange(s.mem, Trunc(Place(StartAddress(b, later, ldm), RegisterList(ldm), i)), W4)
    ensures var p := Trunc(Place(StartAddress(b, later, ldm), RegisterList(ldm), i));
      Load(later.mem, p, W4) == Load(s.mem, p, W4)
  {
    hide Condition, Cond, RegisterList, Listed, StartAddress, Load, Trunc, StoreUpTo, Count, Rn, Bit21, Bit23, Bit24;
    var start, start', list := StartAddress(b, s, stm), StartAddress(b, later, ldm), RegisterList(stm);
    WrittenPairStart(b, s, stm, later, ldm);
    CountMonotone(RegisterList(ldm), i, 16);
    var p := Trunc(Place(start', RegisterList(ldm), i));
    forall j: nat | j < 16 && Listed(list, j) ensures Trunc(Place(start, list, j)) != p {
      CountMonotone(list, j, 16);
      PlacesApart(start, start', Count(list, 16), Count(list, j), Count(RegisterList(ldm), i));
    }
    StoresElsewhere(Cursor(s, start, b.host.junk), stm, 16, p);
  }

  /** Word j of one block and word i of the next are different words. */
  lemma PlacesApart(start: Word, start': Word, n: nat, j: nat, i: nat)
    requires n <= 16 && i < n && j < n
    requires start' == Trunc(start + 4 * n) || start == Trunc(start' + 4 * n)
    ensures Trunc(start + 4 * j) != Trunc(start' + 4 * i)
  {
    if start' == Trunc(start + 4 * n) {
      TruncSum(start + 4 * n, 4 * i);
      Near(start + 4 * j, 4 * (n + i - j));
    } else {
      TruncSum(start' + 4 * n, 4 * j);
      Near(start' + 4 * i, 4 * (n + j - i));
    }
  }

  lemma Near(x: int, d: nat)
    requires 0 < d < 0x1_0000_0000
    ensures Trunc(x) != Trunc(x + d)
  {
  }

  /** As written a block lies within 128 bytes of address 0, so in memories of 128 bytes
      to nearly a gibibyte no access of it gets past the guard and out of the array. */
  lemma WrittenNeverOverruns(b: Build, s: State, ins: Word)
    requires !b.baseValue && 128 <= |s.mem.bytes| <= 0x3FFF_FF00
    ensures NeverOverruns(s.mem, StartAddress(b, s, ins), RegisterList(ins))
  {
    hide Count, RegisterList, Rn, Listed, Bit23, Bit24;
    var start, list := StartAddress(b, s, ins), RegisterList(ins);
    assert start < 32 || start >= 0xFFFF_FFC0 by { assert Rn(ins) < 16 by { RnBelow(ins); } }
    hide StartAddress;
    forall i: nat | i < 16 && Listed(list, i) ensures !Overruns(s.mem, Trunc(Place(start, list, i)), W4) {
      NearZero(s.mem, start, Count(list, i));
    }
  }

  lemma RnBelow(ins: Word)
    ensures Rn(ins) < 16
  {
  }

  lemma NearZero(m: Mem, start: Word, j: nat)
    requires (start < 32 || start >= 0xFFFF_FFC0) && j <= 16 && 128 <= |m.bytes| <= 0x3FFF_FF00
    ensures !Overruns(m, Trunc(start + 4 * j), W4)
  {
    var a := Trunc(start + 4 * j);
    assert a < 0x80 - 4 || a >= 0xFFFF_FFC0;
  }

  // ---------- misaligned blocks ----------

  /** As written a block starts on a word boundary exactly when the number of Rn is a
      multiple of 4. */
  lemma WrittenAlignment(b: Build, s: State, ins: Word)
    requires !b.baseValue
    ensures StartAddress(b, s, ins) % 4 == Rn(ins) % 4
  {
    hide Count, RegisterList, Bit23, Bit24, Rn, Trunc;
    TruncAlignment(Rn(ins), -(Count(RegisterList(ins), 16) as int));
    TruncAlignment(Rn(ins), 1 - Count(RegisterList(ins), 16) as int);
    TruncAlignment(Rn(ins), 1);
    TruncAlignment(Rn(ins), 0);
  }

  lemma TruncAlignment(x: int, k: int)
    ensures Trunc(x + 4 * k) % 4 == x % 4
  {
    var q, r := (x + 4 * k) / 0x1_0000_0000, Trunc(x + 4 * k);
    DivModUnique(r, 4, x / 4 + k - q * 0x4000_0000, x % 4);
  }

  /** Otherwise every store is refused and the instruction does nothing, */
  lemma WrittenStoreRefused(b: Build, s: State, ins: Word)
    requires !b.baseValue && Rn(ins) % 4 != 0 && Bit20(ins) == 0 && s.stop == Running
    ensures Multiple(b, s, ins) == s
  {
    hide Condition, Cond, StartAddress, RegisterList, Rn, StoreUpTo;
    WrittenAlignment(b, s, ins);
    StoresRefused(Cursor(s, StartAddress(b, s, ins), b.host.junk), ins, 16);
  }

  lemma {:induction false} StoresRefused(c: Cursor, ins: Word, n: nat)
    requires c.s.stop == Running && c.address % 4 != 0
    ensures var d := StoreUpTo(c, ins, n);
      d.s == c.s && d.address % 4 == c.address % 4
  {
    if n > 0 {
      StoresRefused(c, ins, n - 1);
      StoreRefused(StoreUpTo(c, ins, n - 1), ins, n - 1);
    }
    hide StoreOne;
  }

  lemma StoreRefused(d: Cursor, ins: Word, i: nat)
    requires d.s.stop == Running && d.address % 4 != 0
    ensures var e := StoreOne(d, ins, i);
      e.s == d.s && e.address % 4 == d.address % 4
  {
    hide Bit, StoredValue, RegisterList;
  }

  /** and every load is too: the listed registers receive what the uninitialised local
      holds, and the PC, without S, the status -1 with bit 0 cleared. */
  lemma WrittenLoadRefused(b: Build, s: State, ins: Word, i: nat)
    requires !b.baseValue && Rn(ins) % 4 != 0 && Bit20(ins) == 1 && s.stop == Running && Known(ModeOf(s))
    requires Condition(TestedCpsr(s, ins), Cond(ins)) && i < 15
    ensures ReadR(Multiple(b, s, ins), i) == if Listed(RegisterList(ins), i) then b.host.junk else ReadR(s, i)
    ensures Multiple(b, s, ins).mem == s.mem
    ensures Listed(RegisterList(ins), 15) && !NoSpsr(s, ins) ==>
      Multiple(b, s, ins).regs[PC] == if Bit22(ins) == 1 then b.host.junk else 0xFFFF_FFFE
  {
    hide Condition, Cond, StartAddress, RegisterList, Rn, LoadUpTo, TestedCpsr, ReadR, Listed, LoadPc, Bit22, HasSpsr;
    WrittenAlignment(b, s, ins);
    var c := Cursor(s, StartAddress(b, s, ins), b.host.junk);
    LoadsRefused(b, c, RegisterList(ins), 15);
    PcRefused(b, LoadUpTo(b, c, RegisterList(ins), 15), ins);
  }

  lemma PcRefused(b: Build, d: Cursor, ins: Word)
    requires d.address % 4 != 0
    ensures KeepsLow(d.s, LoadPc(b, d, ins))
    ensures Listed(RegisterList(ins), 15) && !NoSpsr(d.s, ins) ==>
      LoadPc(b, d, ins).regs[PC] == if Bit22(ins) == 1 then d.value else 0xFFFF_FFFE
  {
    NothingWritten(d.s);
    PcWritten(b, d.s, if Bit22(ins) == 1 then d.value else 0xFFFF_FFFE);
    hide KeepsLow, WriteR, Bit, RegisterList, Bit22, HasSpsr;
  }

  lemma LoadRefused(b: Build, d: Cursor, list: nat, i: nat)
    requires i < 15 && d.address % 4 != 0 && Known(ModeOf(d.s))
    ensures var e := LoadOne(b, d, list, i);
      && e.s == (if Listed(list, i) then WriteR(b, d.s, i, d.value) else d.s)
      && e.address % 4 == d.address % 4 && e.value == d.value
  {
    hide Bit, WriteR;
  }

  lemma {:induction false} LoadsRefused(b: Build, c: Cursor, list: nat, n: nat)
    requires n <= 15 && c.s.stop == Running && c.address % 4 != 0 && Known(ModeOf(c.s))
    ensures var d := LoadUpTo(b, c, list, n);
      && d.s.mem == c.s.mem && d.s.stop == Running && Cpsr(d.s) == Cpsr(c.s)
      && d.address % 4 == c.address % 4 && d.value == c.value
      && (forall i: nat :: i < 15 ==>
            ReadR(d.s, i) == if i < n && Listed(list, i) then c.value else ReadR(c.s, i))
  {
    if n > 0 {
      LoadsRefused(b, c, list, n - 1);
      var d := LoadUpTo(b, c, list, n - 1);
      LoadRefused(b, d, list, n - 1);
      ReadsAfterWrite(b, d.s, n - 1, c.value);
    }
    hide Listed, WriteR, ReadR, LoadOne, Cpsr;
  }
}
