/** arm_load_store.c: load and store multiple. */
module BlockTransfer {
  import opened Words
  import opened Builds
  import opened Registers
  import opened Memory
  import opened Core
  import opened Fields
  import opened Decode

  /** The number of the lowest n bits of a list that are set. */
  function Count(list: nat, n: nat): (c: nat)
    ensures c <= n
  {
    if n == 0 then 0 else Count(list, n - 1) + Bit(list, n - 1)
  }

  /** number_set_bits_in. */
  method NumberSetBitsIn(list: nat) returns (count: nat)
    ensures count == Count(list, 16)
  {
    count := 0;
    var mask := 1;
    for i := 0 to 16
      invariant count == Count(list, i) && mask == Pow2(i)
    {
      AndMask(i, list);
      FlagTimes(Bit(list, i), Pow2(i));
      if And(mask, list) == mask {
        count := count + 1;
      }
      mask := mask * 2;
    }
  }

  /** The base: as written the number of Rn (lines 91-119). */
  function Base(b: Build, s: State, ins: Word): Word {
    if b.baseValue then ReadR(s, Rn(ins)) else Rn(ins)
  }

  /** As written U set means decrement (lines 90 and 108). */
  predicate Decrements(b: Build, ins: Word) {
    if b.baseValue then Bit23(ins) == 0 else Bit23(ins) == 1
  }

  function StartAddress(b: Build, s: State, ins: Word): Word {
    var base, n := Base(b, s, ins), 4 * Count(RegisterList(ins), 16);
    if Decrements(b, ins) then Trunc(base - n + (if Bit24(ins) == 1 then 0 else 4))
    else Trunc(base + (if Bit24(ins) == 1 then 4 else 0))
  }

  function EndAddress(b: Build, s: State, ins: Word): Word {
    var base, n := Base(b, s, ins), 4 * Count(RegisterList(ins), 16);
    if Decrements(b, ins) then Trunc(base - (if Bit24(ins) == 1 then 4 else 0))
    else Trunc(base + n - (if Bit24(ins) == 1 then 0 else 4))
  }

  function NewBase(b: Build, s: State, ins: Word): Word {
    var base, n := Base(b, s, ins), 4 * Count(RegisterList(ins), 16);
    if Decrements(b, ins) then Trunc(base - n) else Trunc(base + n)
  }

  /** The word the condition is tested on: 0, which read_spsr yields, for a load
      whose base is the PC (lines 80-84). */
  function TestedCpsr(s: State, ins: Word): Word {
    if Bit20(ins) == 1 && Rn(ins) == 15 then ReadSpsr(s.regs) else Cpsr(s)
  }

  /** The writeback, which as written goes to a local variable. */
  function Rebased(b: Build, s: State, ins: Word): State {
    if b.baseValue && Bit21(ins) == 1 then WriteR(b, s, Rn(ins), NewBase(b, s, ins)) else s
  }

  /** The state of a transfer loop: value is the local that a refused read leaves. */
  datatype Cursor = Cursor(s: State, address: Word, value: Word)

  function LoadOne(b: Build, c: Cursor, list: nat, i: nat): Cursor {
    if Bit(list, i) == 0 then c
    else match Peek(c.s, c.address, W4)
      case Beyond => c.(s := c.s.(stop := Overrun))
      case Denied => Cursor(WriteR(b, c.s, i, c.value), Trunc(c.address + 4), c.value)
      case Value(v) => Cursor(WriteR(b, c.s, i, v), Trunc(c.address + 4), v)
  }

  function LoadUpTo(b: Build, c: Cursor, list: nat, n: nat): Cursor {
    if n == 0 then c
    else
      var d := LoadUpTo(b, c, list, n - 1);
      if d.s.stop != Running then d else LoadOne(b, d, list, n - 1)
  }

  function StoredValue(s: State, ins: Word, i: nat): Word {
    if Bit22(ins) == 0 then ReadR(s, i) else ReadUsrR(s, i)
  }

  function StoreOne(c: Cursor, ins: Word, i: nat): Cursor {
    if Bit(RegisterList(ins), i) == 0 then c
    else
      var value := StoredValue(c.s, ins, i);
      var s1 := Poke(c.s, c.address, W4, value);
      if s1.stop != Running then c.(s := s1) else Cursor(s1, Trunc(c.address + 4), value)
  }

  function StoreUpTo(c: Cursor, ins: Word, n: nat): Cursor {
    if n == 0 then c
    else
      var d := StoreUpTo(c, ins, n - 1);
      if d.s.stop != Running then d else StoreOne(d, ins, n - 1)
  }

  /** The PC is loaded with S in a mode without an SPSR. */
  predicate NoSpsr(s: State, ins: Word) {
    Bit(RegisterList(ins), 15) == 1 && Bit22(ins) == 1 && !HasSpsr(ModeOf(s))
  }

  /** The PC's share of a load: with S only in a mode that has an SPSR; without S the
      PC receives the status of the read (line 157), bit 0 cleared. */
  function LoadPc(b: Build, c: Cursor, ins: Word): State {
    if Bit(RegisterList(ins), 15) == 0 then c.s
    else if NoSpsr(c.s, ins) then c.s
    else match Peek(c.s, c.address, W4)
      case Beyond => c.s.(stop := Overrun)
      case Denied => WriteR(b, c.s, PC, if Bit22(ins) == 1 then c.value else 0xFFFF_FFFE)
      case Value(v) => WriteR(b, c.s, PC, if Bit22(ins) == 1 then v else 0)
  }

  /** arm_load_store_multiple. */
  function Multiple(b: Build, s: State, ins: Word): State {
    if !Condition(TestedCpsr(s, ins), Cond(ins)) then s
    else
      var c := Cursor(Rebased(b, s, ins), StartAddress(b, s, ins), b.host.junk);
      if Bit20(ins) == 1 then
        var d := LoadUpTo(b, c, RegisterList(ins), 15);
        if d.s.stop != Running then d.s else LoadPc(b, d, ins)
      else StoreUpTo(c, ins, 16).s
  }

  // ---------- the assertions ----------

  lemma {:induction false} LoadAddress(b: Build, c: Cursor, list: nat, n: nat)
    ensures LoadUpTo(b, c, list, n).s.stop == Running ==>
      LoadUpTo(b, c, list, n).address == Trunc(c.address + 4 * Count(list, n))
  {
    hide Bit, Peek, WriteR;
    if n > 0 {
      LoadAddress(b, c, list, n - 1);
      TruncSum(c.address + 4 * Count(list, n - 1), 4);
    } else {
      SmallTrunc(c.address);
    }
    hide Trunc;
  }

  lemma {:induction false} StoreAddress(c: Cursor, ins: Word, n: nat)
    ensures StoreUpTo(c, ins, n).s.stop == Running ==>
      StoreUpTo(c, ins, n).address == Trunc(c.address + 4 * Count(RegisterList(ins), n))
  {
    hide Bit, Poke, StoredValue, RegisterList;
    if n > 0 {
      StoreAddress(c, ins, n - 1);
      TruncSum(c.address + 4 * Count(RegisterList(ins), n - 1), 4);
    } else {
      SmallTrunc(c.address);
    }
    hide Trunc;
  }

  /** For every list, the empty one included, every addressing mode and every base,
      the last address of the block is the end address. */
  lemma EndIsLast(b: Build, s: State, ins: Word)
    ensures EndAddress(b, s, ins) ==
      Trunc(Trunc(StartAddress(b, s, ins) + 4 * Count(RegisterList(ins), 16)) - 4)
  {
    hide Base, Count, RegisterList, Decrements, Bit24;
    var base: int, n: int := Base(b, s, ins), 4 * Count(RegisterList(ins), 16);
    var start := if Decrements(b, ins) then base - n + (if Bit24(ins) == 1 then 0 else 4)
                 else base + (if Bit24(ins) == 1 then 4 else 0);
    var end := if Decrements(b, ins) then base - (if Bit24(ins) == 1 then 4 else 0)
               else base + n - (if Bit24(ins) == 1 then 0 else 4);
    assert StartAddress(b, s, ins) == Trunc(start) && EndAddress(b, s, ins) == Trunc(end);
    assert end == start + n - 4;
    hide StartAddress, EndAddress, Trunc;
    TruncSum(start, n);
    TruncSum(start + n, -4);
  }

  lemma {:induction false} LoadStopped(b: Build, c: Cursor, list: nat, m: nat, n: nat)
    requires m <= n && LoadUpTo(b, c, list, m).s.stop != Running
    ensures LoadUpTo(b, c, list, n) == LoadUpTo(b, c, list, m)
    decreases n
  {
    if m < n {
      LoadStopped(b, c, list, m, n - 1);
    }
  }

  lemma {:induction false} StoreStopped(c: Cursor, ins: Word, m: nat, n: nat)
    requires m <= n && StoreUpTo(c, ins, m).s.stop != Running
    ensures StoreUpTo(c, ins, n) == StoreUpTo(c, ins, m)
    decreases n
  {
    if m < n {
      StoreStopped(c, ins, m, n - 1);
    }
  }

  // ---------- the methods ----------

  /** The loop of lines 132-144. */
  method LoadLoop(p: ArmCore, list: nat, start: Word) returns (address: Word, value: Word)
    requires p.Valid() && p.stop == Running
    modifies p, p.reg.regs
    ensures Cursor(p.Snapshot(), address, value) ==
      LoadUpTo(p.build, Cursor(old(p.Snapshot()), start, p.build.host.junk), list, 15)
  {
    hide Peek, WriteR, Read, ReadR, Bit, Trunc;
    ghost var c := Cursor(p.Snapshot(), start, p.build.host.junk);
    address, value := start, p.build.host.junk;
    for i := 0 to 15
      invariant p.Valid() && p.stop == Running
      invariant LoadUpTo(p.build, c, list, i) == Cursor(p.Snapshot(), address, value)
    {
      if Bit(list, i) == 1 {
        var status, read := p.ReadWord(address);
        if p.stop != Running {
          LoadStopped(p.build, c, list, i + 1, 15);
          return;
        }
        if status == 0 {
          value := read;
        }
        p.WriteRegister(i, value);
        address := Trunc(address as int + 4);
      }
    }
  }

  /** The loop of lines 172-184. */
  method StoreLoop(p: ArmCore, ins: Word, start: Word) returns (address: Word, value: Word)
    requires p.Valid() && p.stop == Running
    modifies p, p.mem.adresses
    ensures Cursor(p.Snapshot(), address, value) ==
      StoreUpTo(Cursor(old(p.Snapshot()), start, p.build.host.junk), ins, 16)
  {
    hide Poke, ReadR, ReadUsrR, Bit, Trunc, RegisterList, Bit22;
    ghost var c := Cursor(p.Snapshot(), start, p.build.host.junk);
    address, value := start, p.build.host.junk;
    for i := 0 to 16
      invariant p.Valid() && p.stop == Running
      invariant StoreUpTo(c, ins, i) == Cursor(p.Snapshot(), address, value)
    {
      if Bit(RegisterList(ins), i) == 1 {
        var stored: Word;
        if Bit22(ins) == 0 {
          stored := p.ReadRegister(i);
        } else {
          stored := p.ReadUsrRegister(i);
        }
        var _ := p.WriteWord(address, stored);
        if p.stop != Running {
          StoreStopped(c, ins, i + 1, 16);
          return;
        }
        value := stored;
        address := Trunc(address as int + 4);
      }
    }
  }

  /** Lines 146-161; done says whether the assertion after them is reached, which only
      an access past the array and the return of line 150 prevent. */
  method LoadPcRegister(p: ArmCore, ins: Word, address: Word, value: Word) returns (done: bool, last: Word)
    requires p.Valid() && p.stop == Running
    modifies p, p.reg.regs
    ensures p.Snapshot() == LoadPc(p.build, Cursor(old(p.Snapshot()), address, value), ins)
    ensures done == (p.stop == Running && !NoSpsr(old(p.Snapshot()), ins))
    ensures done ==> last == if Bit(RegisterList(ins), 15) == 1 then Trunc(address + 4) else address
  {
    hide Peek, WriteR, Bit, Trunc, RegisterList, Bit22;
    done, last := true, address;
    if Bit(RegisterList(ins), 15) == 1 {
      if Bit22(ins) == 1 {
        var has := p.reg.CurrentModeHasSpsr();
        if !has {
          return false, address;
        }
      }
      var status, read := p.ReadWord(address);
      if p.stop != Running {
        return false, address;
      }
      if Bit22(ins) == 1 {
        p.WriteRegister(PC, if status == 0 then read else value);
      } else {
        p.WriteRegister(PC, if status == 0 then 0 else 0xFFFF_FFFE);
      }
      last := Trunc(address as int + 4);
    }
  }

  /** The addresses of lines 86-122 and the writeback. */
  method Addresses(p: ArmCore, ins: Word, passes: bool) returns (start: Word, end: Word)
    requires p.Valid()
    modifies p.reg.regs
    ensures start == StartAddress(p.build, old(p.Snapshot()), ins)
    ensures end == EndAddress(p.build, old(p.Snapshot()), ins)
    ensures p.Snapshot() == if passes then Rebased(p.build, old(p.Snapshot()), ins) else old(p.Snapshot())
  {
    hide ReadR, WriteR, Rn, RegisterList, Bit24, Bit23, Bit21, Trunc;
    var repaired := p.build.baseValue;
    var rn := Rn(ins);
    var base: int := rn;
    if repaired {
      var value := p.ReadRegister(rn);
      base := value;
    }
    var count := NumberSetBitsIn(RegisterList(ins));
    if (if repaired then Bit23(ins) == 0 else Bit23(ins) == 1) {
      if Bit24(ins) == 1 {
        start, end := Trunc(base - count * 4), Trunc(base - 4);
      } else {
        start, end := Trunc(base - count * 4 + 4), Trunc(base);
      }
      base := base - count * 4;
    } else {
      if Bit24(ins) == 1 {
        start, end := Trunc(base + 4), Trunc(base + count * 4);
      } else {
        start, end := Trunc(base), Trunc(base + count * 4 - 4);
      }
      base := base + count * 4;
    }
    if passes && Bit21(ins) == 1 && repaired {
      p.WriteRegister(rn, Trunc(base));
    }
  }

  method LoadStoreMultiple(p: ArmCore, ins: Word)
    requires p.Valid() && p.stop == Running
    modifies p, p.reg.regs, p.mem.adresses
    ensures p.Snapshot() == Multiple(p.build, old(p.Snapshot()), ins)
  {
    hide Condition, Cond, Rn, Bit20, RegisterList, StartAddress, EndAddress, Rebased, Trunc, Count, Bit, LoadPc;
    var cpsr := p.ReadCpsr();
    if Bit20(ins) == 1 && Rn(ins) == 15 {
      cpsr := p.reg.ReadSpsrRegister();
    }
    var passes := Condition(cpsr, Cond(ins));
    ghost var s := p.Snapshot();
    var start, end := Addresses(p, ins, passes);
    EndIsLast(p.build, s, ins);
    if !passes {
      return;
    }
    ghost var c := Cursor(p.Snapshot(), start, p.build.host.junk);
    if Bit20(ins) == 1 {
      LoadAddress(p.build, c, RegisterList(ins), 15);
      var address, value := LoadLoop(p, RegisterList(ins), start);
      if p.stop != Running {
        return;
      }
      var done, last := LoadPcRegister(p, ins, address, value);
      if done {
        LastAddress(start, RegisterList(ins), address, last);
        assert end == Trunc(last as int - 4);
      }
    } else {
      StoreAddress(c, ins, 16);
      var address, _ := StoreLoop(p, ins, start);
      if p.stop != Running {
        return;
      }
      assert end == Trunc(address as int - 4);
    }
  }

  lemma CountNext(list: nat, n: nat)
    ensures Count(list, n + 1) == Count(list, n) + Bit(list, n)
  {
  }

  lemma LastAddress(start: Word, list: nat, address: Word, last: Word)
    requires address == Trunc(start + 4 * Count(list, 15))
    requires last == if Bit(list, 15) == 1 then Trunc(address + 4) else address
    ensures last == Trunc(start + 4 * Count(list, 16))
  {
    hide Count, Bit, Trunc;
    CountNext(list, 15);
    TruncSum(start + 4 * Count(list, 15), 4);
  }
}
