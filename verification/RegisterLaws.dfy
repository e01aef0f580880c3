/** The banked register file against section A2.4 of ARM DDI 0100. */
module RegisterLaws {
  import opened Words
  import opened Registers

  /** A physical register as the manual names it: the mode group that owns it and
      its number. */
  datatype Owner = Common | User | Fiq | Irq | Supervisor | Abort | Undefined

  datatype Physical = Physical(owner: Owner, number: nat)

  function OwnerOf(mode: nat): Owner {
    if mode == FIQ then Fiq else if mode == IRQ then Irq else if mode == SVC then Supervisor
    else if mode == ABT then Abort else if mode == UND then Undefined else User
  }

  /** R0 to R7 and the PC are shared, R8 to R12 are private to FIQ mode, R13 and R14
      are private to each mode but shared by USR and SYS. */
  function PhysicalOf(mode: nat, reg: nat): Physical {
    if reg <= 7 || reg == PC then Physical(Common, reg)
    else if reg <= 12 then Physical(if mode == FIQ then Fiq else Common, reg)
    else Physical(OwnerOf(mode), reg)
  }

  /** What register reg holds when the mode is mode. */
  function View(regs: Regs, mode: nat, reg: nat): Word
    requires Known(mode) && reg <= 15
  {
    regs[Cell(mode, reg)]
  }

  /** Two names share a cell exactly when they name the same physical register, so
      the sixteen registers of a mode are distinct; none of them is the CPSR. */
  lemma CellsFollowManual(m1: nat, r1: nat, m2: nat, r2: nat)
    requires Known(m1) && Known(m2) && r1 <= 15 && r2 <= 15
    ensures Cell(m1, r1) == Cell(m2, r2) <==> PhysicalOf(m1, r1) == PhysicalOf(m2, r2)
    ensures 0 <= Cell(m1, r1) != CPSR
    ensures m1 == m2 && r1 != r2 ==> Cell(m1, r1) != Cell(m2, r2)
  {
  }

  /** Whether writing reg in mode m also reaches the SVC register of that number. */
  predicate ReachesSvc(loneBank: bool, m: nat, reg: nat, m2: nat, r2: nat) {
    !loneBank && m in {0x10, 0x1f} && reg in {13, 14} && m2 == 0x13 && r2 == reg
  }

  /** A write is seen in the (mode, register) pairs that name the same physical
      register, and as written also in SVC's R13 or R14 from USR and SYS. */
  lemma WriteIsSeen(loneBank: bool, regs: Regs, reg: nat, value: Word, m2: nat, r2: nat)
    requires Known(Mode(regs)) && Known(m2) && reg <= 15 && r2 <= 15
    ensures View(Write(loneBank, regs, reg, value), m2, r2) ==
      if PhysicalOf(Mode(regs), reg) == PhysicalOf(m2, r2) || ReachesSvc(loneBank, Mode(regs), reg, m2, r2)
      then value else View(regs, m2, r2)
  {
    CellsFollowManual(Mode(regs), reg, m2, r2);
    hide PhysicalOf;
    StrayIsSvc(reg, m2, r2);
    hide Cell;
  }

  lemma StrayIsSvc(reg: nat, m2: nat, r2: nat)
    requires Known(m2) && r2 <= 15
    ensures reg == 13 || reg == 14 ==> (StrayCell(reg) == Cell(m2, r2) <==> m2 == SVC && r2 == reg)
  {
  }

  /** Banks are isolated exactly when the write is not of R13 or R14 from USR or SYS,
      unless line 146 is repaired or the value was in SVC's register already. */
  lemma BankIsolationExact(loneBank: bool, regs: Regs, reg: nat, value: Word)
    requires Known(Mode(regs)) && reg <= 15
    ensures
      (forall m2: nat, r2: nat ::
        Known(m2) && r2 <= 15 && PhysicalOf(Mode(regs), reg) != PhysicalOf(m2, r2) ==>
        View(Write(loneBank, regs, reg, value), m2, r2) == View(regs, m2, r2))
      <==> !ReachesSvc(loneBank, Mode(regs), reg, SVC, reg) || View(regs, SVC, reg) == value
  {
    forall m2: nat, r2: nat | Known(m2) && r2 <= 15
      ensures View(Write(loneBank, regs, reg, value), m2, r2) ==
        if PhysicalOf(Mode(regs), reg) == PhysicalOf(m2, r2) || ReachesSvc(loneBank, Mode(regs), reg, m2, r2)
        then value else View(regs, m2, r2)
    {
      WriteIsSeen(loneBank, regs, reg, value, m2, r2);
    }
    if !loneBank && Stray(Mode(regs), reg) {
      assert PhysicalOf(Mode(regs), reg) != PhysicalOf(SVC, reg);
      WriteIsSeen(loneBank, regs, reg, value, SVC, reg);
    }
    hide View, Write;
  }

  /** A register written is read back, in every known mode and, for R0 to R12 and
      the PC, in every mode. */
  lemma ReadWritten(loneBank: bool, regs: Regs, reg: nat, value: Word)
    requires reg <= 15 && (Known(Mode(regs)) || reg <= 12 || reg == PC)
    ensures Read(Write(loneBank, regs, reg, value), reg) == value
  {
  }

  /** The mode bits, and with them the banking, do not move under register or SPSR
      writes, whatever the mode bits are: no such write reaches the CPSR. */
  lemma WriteKeepsCpsr(loneBank: bool, regs: Regs, reg: nat, value: Word)
    ensures Write(loneBank, regs, reg, value)[CPSR] == regs[CPSR]
    ensures WriteSpsr(loneBank, regs, value)[CPSR] == regs[CPSR]
  {
  }

  /** write_spsr stores its value, but read_spsr yields it exactly when it is 0. */
  lemma SpsrReadBackExact(loneBank: bool, regs: Regs, value: Word)
    requires HasSpsr(Mode(regs))
    ensures WriteSpsr(loneBank, regs, value)[Cell(Mode(regs), SPSR)] == value
    ensures ReadSpsr(WriteSpsr(loneBank, regs, value)) == value <==> value == 0
  {
  }

  /** The cells a register write in a mode can change. */
  predicate InReach(loneBank: bool, mode: nat, cell: int) {
    || (0 <= cell <= 15 && Cell(mode, cell) == cell)
    || (mode == FIQ && 29 <= cell <= 35)
    || (Known(mode) && (cell == R13Cell(mode) || cell == R13Cell(mode) + 1))
    || (!loneBank && (mode == USR || mode == SYS) && (cell == 17 || cell == 18))
  }

  /** Register writes stay within reach. */
  lemma WriteInReach(loneBank: bool, regs: Regs, reg: nat, value: Word, cell: nat)
    requires cell < 37 && !InReach(loneBank, Mode(regs), cell)
    ensures Write(loneBank, regs, reg, value)[cell] == regs[cell]
  {
  }

  /** Line 115: a user write goes through the current mode. It writes the user cell and
      nothing else exactly when the mode shares that cell, and from USR and SYS line 146
      does no harm either; or when everything it would change holds the value already. */
  lemma UserWriteExact(loneBank: bool, regs: Regs, reg: nat, value: Word)
    requires reg <= 15
    ensures Write(loneBank, regs, reg, value) == regs[reg := value] <==>
      (var cell := Cell(Mode(regs), reg);
       if cell == reg then !ReachesSvc(loneBank, Mode(regs), reg, SVC, reg) || View(regs, SVC, reg) == value
       else regs[reg] == value && (cell >= 0 ==> regs[cell] == value))
  {
    var cell := Cell(Mode(regs), reg);
    var written := Write(loneBank, regs, reg, value);
    if cell == reg {
      assert written == Strayed(loneBank, regs, reg, value)[reg := value];
      var stray := StrayCell(reg);
      assert written[stray] == if (!loneBank && Stray(Mode(regs), reg)) || stray == reg then value else regs[stray];
      assert regs[reg := value][stray] == if stray == reg then value else regs[stray];
    } else if cell >= 0 {
      assert written == regs[cell := value];
      assert written[reg] == regs[reg] && written[cell] == value;
      assert regs[reg := value][reg] == value && regs[reg := value][cell] == regs[cell];
    } else {
      assert written == regs;
      assert regs[reg := value][reg] == value;
    }
    hide Write;
  }

  /** Section A2.2: the mode bits, and the registers each mode has to itself. */
  lemma ManualModes(mode: nat, reg: nat)
    ensures Known(mode) <==> mode in {0x10, 0x11, 0x12, 0x13, 0x17, 0x1b, 0x1f}
    ensures HasSpsr(mode) <==> mode in {0x11, 0x12, 0x13, 0x17, 0x1b}
    ensures reg <= 7 || reg == 15 ==> PhysicalOf(mode, reg) == Physical(Common, reg)
    ensures 8 <= reg <= 12 ==> PhysicalOf(mode, reg) == Physical(if mode == 0x11 then Fiq else Common, reg)
    ensures reg == 13 || reg == 14 ==>
      PhysicalOf(0x10, reg) == PhysicalOf(0x1f, reg) == Physical(User, reg)
      && PhysicalOf(0x11, reg) == Physical(Fiq, reg) && PhysicalOf(0x12, reg) == Physical(Irq, reg)
      && PhysicalOf(0x13, reg) == Physical(Supervisor, reg) && PhysicalOf(0x17, reg) == Physical(Abort, reg)
      && PhysicalOf(0x1b, reg) == Physical(Undefined, reg)
  {
  }

  /** read_usr_register reads the register of USR mode, in whatever mode, which is the
      register the mode itself sees exactly when it shares it. */
  lemma UserRead(regs: Regs, mode: nat, reg: nat)
    requires Known(mode) && reg <= 15
    ensures ReadUsr(regs, reg) == View(regs, 0x10, reg)
    ensures PhysicalOf(mode, reg) == PhysicalOf(0x10, reg) ==> ReadUsr(regs, reg) == View(regs, mode, reg)
    ensures PhysicalOf(mode, reg) == PhysicalOf(0x10, reg) <==> Cell(mode, reg) == reg
  {
  }

  /** In modes section A2.2 does not have R13 and R14 read as all ones and cannot be
      written, and the other registers are those of USR mode. */
  lemma OtherModes(loneBank: bool, regs: Regs, reg: nat, value: Word)
    requires !Known(Mode(regs)) && reg <= 15
    ensures Read(regs, reg) == if reg == 13 || reg == 14 then 0xFFFF_FFFF else regs[reg]
    ensures Write(loneBank, regs, reg, value) == if reg == 13 || reg == 14 then regs else regs[reg := value]
  {
  }

  /** The SPSRs are five more cells, none of them a register of any mode or the CPSR. */
  lemma SpsrCells(m1: nat, m2: nat, reg: nat)
    requires HasSpsr(m1) && Known(m2) && reg <= 15
    ensures 0 <= Cell(m1, SPSR) != CPSR && Cell(m1, SPSR) != Cell(m2, reg)
    ensures HasSpsr(m2) && m1 != m2 ==> Cell(m1, SPSR) != Cell(m2, SPSR)
  {
  }
}
