/** Examples/testLDM_STM.s lines 32-33 on the model: three registers moved to three
    others by way of the stack. */
module BlockExample {
  import opened Words
  import opened Builds
  import opened Registers
  import opened Core
  import opened Fields
  import opened Decode
  import opened BlockTransfer
  import opened BlockLaws

  const STMDB_SP_R0_R2: Word := 0xE92D_0007
  const LDMIA_SP_R3_R5: Word := 0xE8BD_0038

  lemma ExampleFields()
    ensures PushPop(STMDB_SP_R0_R2, LDMIA_SP_R3_R5)
    ensures RegisterList(STMDB_SP_R0_R2) == 7 && RegisterList(LDMIA_SP_R3_R5) == 0x38
  {
  }

  lemma StoredBits()
    ensures ThreeFrom(7, 0)
  {
    SmallBits(7, 3);
  }

  lemma LoadedBits()
    ensures ThreeFrom(0x38, 3)
  {
    hide Bit, Pow2;
    assert Pow2(6) == 64 by { SmallPowers(); }
    SmallBits(0x38, 6);
    LowBits();
  }

  lemma LowBits()
    ensures Bit(0x38, 0) == 0 && Bit(0x38, 1) == 0 && Bit(0x38, 2) == 0
    ensures Bit(0x38, 3) == 1 && Bit(0x38, 4) == 1 && Bit(0x38, 5) == 1
  {
    hide Pow2;
    SmallPowers();
  }

  lemma SmallPowers()
    ensures Pow2(0) == 1 && Pow2(1) == 2 && Pow2(2) == 4 && Pow2(3) == 8
    ensures Pow2(4) == 16 && Pow2(5) == 32 && Pow2(6) == 64
  {
  }

  /** The list of the three registers from low. */
  ghost predicate ThreeFrom(list: nat, low: nat) {
    && (forall i: nat :: i < low ==> Bit(list, i) == 0)
    && Bit(list, low) == 1 && Bit(list, low + 1) == 1 && Bit(list, low + 2) == 1
    && (forall i: nat :: i >= low + 3 ==> Bit(list, i) == 0)
  }

  lemma ThreeCounts(list: nat, low: nat)
    requires ThreeFrom(list, low) && low <= 10
    ensures Count(list, low) == 0 && Count(list, low + 1) == 1 && Count(list, low + 2) == 2
    ensures Count(list, 16) == 3
  {
    hide Bit, Count;
    CountBelow(list, low);
    CountNext(list, low);
    CountNext(list, low + 1);
    CountNext(list, low + 2);
    CountAbove(list, low + 3, 16);
  }

  lemma {:induction false} CountBelow(list: nat, n: nat)
    requires forall i: nat :: i < n ==> Bit(list, i) == 0
    ensures Count(list, n) == 0
    decreases n
  {
    if n > 0 {
      CountBelow(list, n - 1);
    }
    hide Bit;
  }

  lemma ThreeCorrespond(from: nat, low: nat, to: nat, base: nat, j: nat)
    requires ThreeFrom(from, low) && ThreeFrom(to, base) && low <= 10 && base <= 10 && j < 3
    ensures Correspond(from, to, low + j, base + j)
  {
    hide Bit, Count;
    ThreeCounts(from, low);
    ThreeCounts(to, base);
    assert j == 0 || j == 1 || j == 2;
  }

  lemma SmallBits(x: nat, n: nat)
    requires x < Pow2(n)
    ensures forall i: nat :: i >= n ==> Bit(x, i) == 0
  {
    forall i: nat | i >= n ensures Bit(x, i) == 0 {
      Pow2Monotone(n, i);
      DivModUnique(x, Pow2(i), 0, x);
    }
  }

  lemma {:induction false} CountAbove(list: nat, m: nat, n: nat)
    requires m <= n && forall i: nat :: i >= m ==> Bit(list, i) == 0
    ensures Count(list, n) == Count(list, m)
    decreases n
  {
    if m < n {
      CountAbove(list, m, n - 1);
    }
    hide Bit;
  }

  /** STMDB sp!, {r0, r1, r2} then LDMIA sp!, {r3, r4, r5} moves R0 to R2 to R3 to R5
      and leaves SP as it was, in every mode of section A2.4, for every aligned SP with
      three words of memory below it. */
  lemma MoveThreeByStack(b: Build, s: State)
    requires b.baseValue && s.stop == Running && Known(ModeOf(s))
    requires ReadR(s, 13) % 4 == 0 && 12 <= ReadR(s, 13) <= |s.mem.bytes|
    ensures var s' := Multiple(b, Multiple(b, s, STMDB_SP_R0_R2), LDMIA_SP_R3_R5);
      && ReadR(s', 3) == ReadR(s, 0) && ReadR(s', 4) == ReadR(s, 1) && ReadR(s', 5) == ReadR(s, 2)
      && ReadR(s', 13) == ReadR(s, 13)
  {
    hide *;
    ExampleFields();
    StoredBits();
    LoadedBits();
    MoveThree(b, s, STMDB_SP_R0_R2, LDMIA_SP_R3_R5, 0, 3, 0);
    MoveThree(b, s, STMDB_SP_R0_R2, LDMIA_SP_R3_R5, 0, 3, 1);
    MoveThree(b, s, STMDB_SP_R0_R2, LDMIA_SP_R3_R5, 0, 3, 2);
  }

  predicate PushPop(stm: Word, ldm: Word) {
    && Cond(stm) == 14 && Cond(ldm) == 14 && Bit20(stm) == 0 && Bit20(ldm) == 1 && Bit22(stm) == 0
    && Bit21(stm) == 1 && Bit21(ldm) == 1 && Rn(stm) == 13 && Rn(ldm) == 13
    && Bit24(stm) == 1 && Bit24(ldm) == 0 && Bit23(stm) == 0 && Bit23(ldm) == 1
  }

  lemma MoveThree(b: Build, s: State, stm: Word, ldm: Word, low: nat, base: nat, j: nat)
    requires b.baseValue && s.stop == Running && Known(ModeOf(s)) && PushPop(stm, ldm)
    requires ThreeFrom(RegisterList(stm), low) && ThreeFrom(RegisterList(ldm), base)
    requires low <= 10 && base <= 10 && j < 3
    requires ReadR(s, 13) % 4 == 0 && 12 <= ReadR(s, 13) <= |s.mem.bytes|
    ensures var s' := Multiple(b, Multiple(b, s, stm), ldm);
      && ReadR(s', base + j) == ReadR(s, low + j) && ReadR(s', 13) == ReadR(s, 13)
  {
    hide RegisterList, Multiple, ReadR, Listed, Count, Correspond, Cond, Trunc, Known, Bit, Rebased, StartAddress, Fits;
    hide Bit20, Bit21, Bit22, Bit23, Bit24, Rn;
    ThreeCorrespond(RegisterList(stm), low, RegisterList(ldm), base, j);
    ThreeCounts(RegisterList(stm), low);
    ThreeCounts(RegisterList(ldm), base);
    Unlisted(RegisterList(ldm), base);
    PushFits(b, s, stm);
    StoreKeepsSize(b, s, stm);
    RebasedKeeps(b, s, stm);
    StoreStops(b, s, stm);
    var t := Multiple(b, s, stm);
    SameCpsr(t, Rebased(b, s, stm));
    StoreLoadPair(b, s, stm, t, ldm, low + j, base + j);
  }

  lemma Unlisted(list: nat, low: nat)
    requires ThreeFrom(list, low) && low <= 10
    ensures !Listed(list, 13) && !Listed(list, 15)
  {
    hide Bit;
  }

  lemma PushFits(b: Build, s: State, stm: Word)
    requires b.baseValue && Rn(stm) == 13 && Bit24(stm) == 1 && Bit23(stm) == 0 && Count(RegisterList(stm), 16) == 3
    requires ReadR(s, 13) % 4 == 0 && 12 <= ReadR(s, 13) <= |s.mem.bytes|
    ensures Fits(s.mem, StartAddress(b, s, stm), RegisterList(stm))
  {
    hide ReadR, Count, RegisterList, Trunc, Rn, Bit23, Bit24;
    SmallTrunc(ReadR(s, 13) - 12);
  }

  lemma SameCpsr(s: State, s': State)
    requires s.regs == s'.regs
    ensures Cpsr(s) == Cpsr(s') && ModeOf(s) == ModeOf(s')
  {
  }

  lemma StoreStops(b: Build, s: State, ins: Word)
    requires s.stop == Running && Bit20(ins) == 0 && Condition(Cpsr(s), Cond(ins))
    requires Fits(s.mem, StartAddress(b, s, ins), RegisterList(ins))
    ensures Multiple(b, s, ins).stop == Running
  {
    StoreMultiple(b, s, ins);
    RebasedKeeps(b, s, ins);
    hide Condition, Cond, StartAddress, RegisterList, Multiple, Rebased;
  }

  /** As written the base of both is the number of SP: a block at 17 is no block of words, nothing
      is stored, and R3 to R5 receive what an uninitialised variable holds. */
  lemma MoveThreeDeparts(b: Build, s: State)
    requires !b.baseValue && s.stop == Running && Known(ModeOf(s))
    ensures StartAddress(b, s, STMDB_SP_R0_R2) == 17
    ensures var s' := Multiple(b, Multiple(b, s, STMDB_SP_R0_R2), LDMIA_SP_R3_R5);
      && s'.mem == s.mem
      && ReadR(s', 3) == b.host.junk && ReadR(s', 4) == b.host.junk && ReadR(s', 5) == b.host.junk
      && ReadR(s', 13) == ReadR(s, 13)
  {
    hide *;
    ExampleFields();
    LoadedBits();
    WrittenStart(b, s, STMDB_SP_R0_R2);
    ThreeRefused(b, s, STMDB_SP_R0_R2, LDMIA_SP_R3_R5, 3);
  }

  lemma WrittenStart(b: Build, s: State, stm: Word)
    requires !b.baseValue && Rn(stm) == 13 && Bit24(stm) == 1 && Bit23(stm) == 0
    ensures StartAddress(b, s, stm) == 17
  {
    hide Rn, Bit24, Bit23, Count, RegisterList;
  }

  lemma ThreeRefused(b: Build, s: State, stm: Word, ldm: Word, base: nat)
    requires !b.baseValue && s.stop == Running && Known(ModeOf(s)) && PushPop(stm, ldm)
    requires ThreeFrom(RegisterList(ldm), base) && base <= 10
    ensures var s' := Multiple(b, Multiple(b, s, stm), ldm);
      && s'.mem == s.mem && ReadR(s', 13) == ReadR(s, 13)
      && ReadR(s', base) == b.host.junk && ReadR(s', base + 1) == b.host.junk && ReadR(s', base + 2) == b.host.junk
  {
    hide Multiple, ReadR, Known, RegisterList, Cond, Rn, Bit, Bit20, Bit21, Bit22, Bit23, Bit24, FlagsOf;
    WrittenStoreRefused(b, s, stm);
    assert Condition(TestedCpsr(s, ldm), Cond(ldm));
    hide Condition, TestedCpsr;
    Unlisted(RegisterList(ldm), base);
    WrittenLoadRefused(b, s, ldm, 13);
    WrittenLoadRefused(b, s, ldm, base);
    WrittenLoadRefused(b, s, ldm, base + 1);
    WrittenLoadRefused(b, s, ldm, base + 2);
  }
}
