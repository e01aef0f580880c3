# Armator: the execution core, modelled and proved

Armator is an ARMv5 instruction-set simulator in C. This project models its
execution core and proves properties of it: a register file of 37 cells banked
by the CPSR's mode bits, a byte memory of either endianness, the barrel shifter
and condition codes, the sixteen data-processing operations and their flags,
single, sub-word and block transfers, branches, and the step that joins them.
The standard the simulator follows is the ARM Architecture Reference Manual
(ARM DDI 0100), sections A2.4 (registers), A2.7 (endianness), A3.2 (conditions),
A3.4 (operations), A5.1 (operands) and A5.2 to A5.4 (transfers).

## How it is built

- `Words`, `Fields`, `Encodings`: 32-bit words as bounded integers; shifts, masks
  and the macros of util.h by multiplication, division and remainder; instruction
  words taken apart, and put together from their fields.
- `Registers`, `Memory`, `Core`: the three records of the C program as the
  classes `RegisterFile`, `ByteMemory` and `ArmCore`. Each module also has value
  functions; every method is proved against one of them. `ArmCore` models
  arm_core.c: the PC moves on by 4 in the fetch, and reading register 15 adds 4
  more and clears bit 1.
- `Decode`, `DataProcessing`, `Branch`, `LoadStore`, `BlockTransfer`,
  `Instruction`: one module for each C file (two for arm_load_store.c), again
  methods in the C program's branches, loops and order, and value functions.
- The other modules state what is promised; `TransferLaws` and `FormLaws` for every
  instruction word of every class. They are about the value functions,
  which by the methods' contracts are what the methods do.

`Instruction.Step` is one step on values, `Instruction.Steps` any number of them.

### As written, and repaired

`Builds.Build` says which program is meant. With all repairs off it is the code
as written; each repair is one flag:

| flag | lines | repair |
|---|---|---|
| loneBank | registers.c:146 | no access to an SVC cell from USR and SYS |
| extendSign | arm_branch_other.c:32 | the 24-bit branch offset is sign-extended |
| shifter | decode.c:37-83 | branch guards ask for the shift's form, rotations are modulo 32, the carry is a bit of Rm |
| operandFlags | arm_data_processing.c:111, 148-149, 184, 213-247 | flags from operand values and the result; V from both overflows, borrow from both borrows |
| baseValue | arm_load_store.c:88-121 | block transfers use the base register's value, U set increments, the base is written back |
| signedLoads | arm_load_store.c:457, 472 | sign extension in a 32-bit variable |

A theorem that does not mention a flag holds for the code as written and for
every combination of repairs. Where the code as written misses what the manual
says, a lemma states exactly when it does not, and `Departures` has inputs.

`Builds.Host` stands for what C leaves open: the results of shifts by a count
outside 0 to 31, and the content of an unassigned local. All theorems are for
every host. An access beyond the memory array, which the guards of memory.c let
through, stops the model (`Overrun`), as C promises nothing after it.

## Model

| member | source | states |
|---|---|---|
| Multiplication.Multiplies | Examples/test_Soutenance.s:59-68 | with the branch extension repaired the loop, run on the step function from any R0, R1, R2, mode and endianness, ends within 32 iterations with R0 = R2 + R0·R1 mod 2^32, everything else kept |
| Multiplication.WrittenMultiplication | arm_branch_other.c:29-37 | as written the loop gets past its first test exactly when R0 is 0; otherwise the branch goes 0x24000000 too far |
| Multiplication.StepAt | arm_instruction.c:32-88 | a step at an instruction of the placed program is the dispatch of that instruction with the PC moved on |
| Multiplication.Body | Examples/test_Soutenance.s:60-64 | one iteration halves R0, doubles R1 and adds R1 to R2 if R0 was odd |
| Multiplication.Test | Examples/test_Soutenance.s:65-67 | the loop test goes on exactly when R0 is not 0 |
| Multiplication.Tested | arm_data_processing.c:158-177 | the four tests set N and Z by the result, with whatever operand, and touch nothing but the flags, as written; C and V are in LogicalFlagsExact and WrittenFlagsExact |
| TransferLaws.SingleLoad | arm_load_store.c:239-343 | LDR and LDRB words of every P, U, W and I: Rd, the PC included, receives the word or byte at the base, or at base plus or minus offset; the base moves exactly for post-indexing and W, loses to Rd when they are one, and nothing else changes |
| TransferLaws.SingleStore | arm_load_store.c:239-343 | STR and STRB words of every form: Rd, read once the base has moved, and with post-indexing and W the register of USR mode, lies at that address, and no other byte, register or flag changes |
| TransferLaws.SingleRefused | arm_load_store.c:239-343 | a refused access moves the base and does nothing else |
| TransferLaws.HalfLoad | arm_load_store.c:345-484 | LDRH, LDRSH and LDRSB words, the same, with the sign extended only if repaired and the I bit as line 360 reads it |
| TransferLaws.HalfStore | arm_load_store.c:345-404 | STRH words, the same |
| TransferLaws.HalfNothing | arm_load_store.c:395-484 | the other words of the class, and refused accesses, move the base and do nothing else |
| TransferLaws.SinglePast | arm_load_store.c:239-343 | an access the guard lets through past the array stops the model |
| TransferLaws.HalfPast | arm_load_store.c:345-484 | the same for halves and signed bytes |
| TransferLaws.HalfUntaken | arm_load_store.c:366-380 | post-indexed words without W do nothing |
| FormLaws.BlockStore | arm_load_store.c:73-187 | STM words of every form: where each register, with S that of USR mode, is stored, which base is written back, and that nothing else changes; as written and repaired |
| FormLaws.BlockLoad | arm_load_store.c:73-187 | LDM words of every form: what every register, the PC included, holds afterwards |
| FormLaws.BlockUnloaded | arm_load_store.c:80-84 | an LDM on the PC also asks for its condition of the word 0 that read_spsr yields |
| FormLaws.ImmediateForm | arm_data_processing.c:266-296 | an operation word with an immediate yields what section A3.4 asks of Rn and the unrotated immediate in Rd; without S and for the PC the CPSR stays, and nothing else but flags changes |
| FormLaws.FieldForm | arm_data_processing.c:266-296 | the same with a register shifted by a field as section A5.1 has it, the shifter repaired or right as written |
| FormLaws.RegisterForm | arm_data_processing.c:266-296 | the same with a register shifted by the low byte of a register |
| FormLaws.BranchForm | arm_branch_other.c:29-49 | B and BL words: the target exactly when forward or repaired, LR with L, and nothing else |
| FormLaws.SwiExact | arm_branch_other.c:51-60 | SWI 0x123456, and by the missing break a coprocessor transfer with that number, ends the simulation; nothing else in the two classes does anything |
| FormLaws.Skipped | arm_instruction.c:38-86 | an instruction whose condition fails changes nothing |
| FormLaws.NotFetched | arm_instruction.c:32-37 | a refused fetch moves the PC past it and changes nothing else |
| FormLaws.FetchedWord | arm_instruction.c:32-39 | a fetch that is served executes the word there with the PC past it |
| StackLaws.StackSimulation | arm_load_store.c:196-343 | any sequence of STR rd,[rn,#-4]! and LDR rd,[rn],#4 that never underflows or overfills simulates an abstract stack: all registers, all stacked words, the base, and memory outside the room |
| StackLaws.BalancedRestoresBase | arm_load_store.c:260-308 | a balanced sequence restores the base and leaves memory above it untouched |
| StackLaws.BracketReturns | arm_load_store.c:196-343 | last in, first out: at any depth a push of r1, anything balanced and a pop to r2 bring the word of r1 to r2 and restore the base |
| StackLaws.DispatchedActs | arm_instruction.c:60-63 | the two instruction words decode to the push and the pop |
| BlockLaws.StoreMultiple | arm_load_store.c:170-186 | STM puts register i at start + 4·(list bits below i) and changes nothing outside the block |
| BlockLaws.LoadMultiple | arm_load_store.c:128-163 | LDM of any list, the PC included, loads each listed register of R0-R14 from its place and changes no other of them, nor the CPSR nor memory |
| BlockLaws.LoadedPcExact | arm_load_store.c:145-161 | without S the PC receives the status 0 instead of its word, right exactly for words 0 and 1; with S it receives its word, but the CPSR is not restored |
| BlockLaws.LoadAnywhere | arm_load_store.c:128-144 | LDM of any list from any start, wrapped and refused places included: a listed register receives the word in its place, or what the local of the loop still holds |
| BlockLaws.StoreThenLoad | arm_load_store.c:86-187 | STM then LDM of as long a list from the same start hands every stored register to the one at its place in the loaded list; the same list restores every listed register; as written |
| BlockLaws.StoreLoadPair | arm_load_store.c:86-187 | with the base repaired, DB/IA, IB/DA, IA/DB and DA/IB pairs move the listed registers to the ones at the same places and restore the base |
| BlockLaws.WrittenPairStart | arm_load_store.c:86-122 | as written a load with the opposite P and U bits starts where the store did exactly for empty lists; otherwise its block is the neighbouring one |
| BlockLaws.WrittenPairExact | arm_load_store.c:86-187 | so as written, for every list and every Rn, each loaded register receives the word that lay in its place before the store, or, where the place wraps out of memory or is misaligned, what the loop's local still holds |
| BlockLaws.WrittenNeverOverruns | arm_load_store.c:86-122 | a written block never leaves a memory of 128 bytes to nearly 1 GiB past the guard, so the condition of the two rows above is met there |
| BlockLaws.WrittenWritebackExact | arm_load_store.c:93-119 | the base that is never written back is right exactly for empty lists, for stores and for loads without the base in their list, whatever becomes of the transfer |
| BlockLaws.WrittenStoreRefused | arm_load_store.c:170-184 | as written a store does nothing unless the number of Rn is a multiple of 4 |
| BlockLaws.WrittenLoadRefused | arm_load_store.c:128-144 | and a load then puts an uninitialised local in every listed register, and without S the status -1, bit 0 cleared, in the PC |
| BlockExample.MoveThreeByStack | Examples/testLDM_STM.s:32-33 | STMDB sp!, {r0, r1, r2} then LDMIA sp!, {r3, r4, r5} copies R0 to R2 into R3 to R5 and keeps SP, for every aligned SP with three words below it, with the base repaired |
| BlockExample.MoveThreeDeparts | Examples/testLDM_STM.s:32-33 | as written the same two lines start at address 17, store nothing and load an uninitialised value three times |
| BlockLaws.WrittenStartExact | arm_load_store.c:86-122 | as written a block starts where section A5.4 says exactly for one value of the base register |
| BlockTransfer.EndIsLast | arm_load_store.c:163-185 | the two assertions: for every list, mode and base the end address is the last address of the block mod 2^32 |
| BlockTransfer.LoadStoreMultiple | arm_load_store.c:73-189 | the whole transfer, with both assertions proved where they are reached |
| BlockTransfer.LoadAddress | arm_load_store.c:131-144 | the loading loop's address is start + 4·popcount of the list so far |
| BlockTransfer.StoreAddress | arm_load_store.c:171-184 | the same for the storing loop |
| BlockTransfer.NumberSetBitsIn | arm_load_store.c:30-40 | the mask loop counts the set bits |
| BlockTransfer.LoadLoop | arm_load_store.c:131-144 | the loop against its recursive specification, refused and overrunning reads included |
| BlockTransfer.StoreLoop | arm_load_store.c:171-184 | the same for stores |
| BlockTransfer.LoadPcRegister | arm_load_store.c:145-161 | what the PC receives, and that the assertion after it is reached exactly unless the access leaves memory or S asks for an SPSR the mode does not have |
| BlockTransfer.Addresses | arm_load_store.c:86-122 | start and end address and the writeback, which as written reaches no register |
| MemoryRuns.EndianSimulation | memory.c:56-127 | any accesses, mirrored inside each word, give the same replies on the mirrored little-endian memory, refusals included, and keep the mirror image |
| MemoryRuns.ReadsSeeRecentWrites | memory.c:56-127 | after any mixed-width accesses a read combines the most recently written bytes in the order of the endianness |
| MemoryRuns.BytesAreRecent | memory.c:91-127 | every byte is the one last written to it |
| MemoryRuns.AcceptedStaysInWord | memory.c:65-82 | no accepted access straddles an aligned word |
| MemoryRuns.GuardExact | memory.c:56-127 | the guard refuses exactly accesses that straddle two words or begin beyond four times the array, so every access to the array inside a word is served |
| Memory.LoadStored | memory.c:65-127 | a value stored is read back, for every width and endianness |
| Memory.LoadElsewhere | memory.c:91-127 | a store does not change what is read elsewhere |
| Memory.ByteMemory.ReadByte | memory.c:56-63 | status and value of a byte read |
| Memory.ByteMemory.ReadHalf | memory.c:65-76 | status and endianness-ordered value of a half read |
| Memory.ByteMemory.ReadWord | memory.c:78-89 | status and endianness-ordered value of a word read |
| Memory.ByteMemory.WriteByte | memory.c:91-97 | status and the whole new memory |
| Memory.ByteMemory.WriteHalf | memory.c:99-111 | status and the whole new memory, digits by endianness |
| Memory.ByteMemory.WriteWord | memory.c:113-127 | status and the whole new memory, digits by endianness |
| Isolation.RunsAreConfined | arm_instruction.c:32-97 | any program, any number of steps, any mode: CPSR bits 27..0, every cell outside the mode's own registers, and the extent of memory are kept |
| Isolation.ModeAndSpsrsStay | arm_instruction.c:32-97 | no program ever changes the mode or an SPSR |
| Isolation.UserRunsAreConfined | registers.c:134-165 | from USR or SYS cells 19-36 stay as written, cells 17-18 too once line 146 is repaired |
| Isolation.DispatchedConfined | arm_instruction.c:42-84 | the same for one instruction of every class |
| Lockstep.UsrAndSysInLockstep | registers.c:57-60 | runs from states that differ only in USR or SYS mode bits stay equal but for those bits |
| Lockstep.StepCommutes | arm_instruction.c:32-88 | one step commutes with the change of mode bits |
| RegisterLaws.CellsFollowManual | registers.c:134-165 | two names reach one cell exactly when they are one physical register of section A2.4; never the CPSR |
| RegisterLaws.ManualModes | arm_constants.h:28-34 | the mode bits of section A2.2, and which registers each mode has to itself |
| RegisterLaws.OtherModes | registers.c:134-165 | in modes the processor does not have R13 and R14 read as all ones and are not written, and the others are those of USR mode |
| RegisterLaws.SpsrCells | registers.c:134-165 | each mode's SPSR is a cell of its own |
| RegisterLaws.UserRead | registers.c:72-93 | read_usr_register reads the register of USR mode in every mode, the mode's own exactly when it is shared |
| RegisterLaws.WriteIsSeen | registers.c:134-182 | a write is seen under exactly the names of the same physical register, and as written from USR and SYS under SVC's R13 or R14 |
| RegisterLaws.BankIsolationExact | registers.c:144-151 | banks are isolated exactly when the write is not of R13 or R14 from USR or SYS, or line 146 is repaired, or the value was there |
| RegisterLaws.ReadWritten | registers.c:134-182 | read after write |
| RegisterLaws.WriteKeepsCpsr | registers.c:134-182 | no register or SPSR write reaches the CPSR for any mode bits |
| RegisterLaws.WriteInReach | registers.c:134-182 | the cells a write can reach from each mode |
| RegisterLaws.SpsrReadBackExact | registers.c:99-105 | an SPSR written is in its cell but read back exactly when it is 0 |
| RegisterLaws.UserWriteExact | registers.c:113-117 | a user write changes the user cell alone exactly when the mode shares that cell and line 146 does no harm, or the value was there |
| Registers.RegisterFile.Action | registers.c:134-165 | the banked access against the cell table, in every mode, known or not |
| Registers.RegisterFile.Worker | registers.c:175-182 | reading or writing one cell |
| Registers.RegisterFile.GetMode | registers.c:50-55 | the five low bits of the CPSR |
| Registers.RegisterFile.CurrentModeHasSpsr | registers.c:57-60 | which modes have an SPSR |
| Registers.RegisterFile.ReadRegister | registers.c:67-70 | the register's value, 0 for numbers above 15 |
| Registers.RegisterFile.ReadUsrRegister | registers.c:72-93 | the user bank's value |
| Registers.RegisterFile.ReadSpsrRegister | registers.c:99-105 | always 0 |
| Registers.RegisterFile.WriteRegister | registers.c:107-111 | the whole new file |
| Registers.RegisterFile.WriteUsrRegister | registers.c:113-117 | a write through the current mode |
| Registers.RegisterFile.WriteCpsr | registers.c:119-121 | the CPSR cell and no other |
| Registers.RegisterFile.WriteSpsrRegister | registers.c:123-127 | the SPSR cell of a mode that has one |
| ShifterLaws.RepairedMeetsManual | decode.c:19-91 | the repaired shifter's value and carry are those of that many one-place shifts, for every operand and amount 0-255, with the immediate forms of section A5.1 |
| ShifterLaws.WrittenValueExact | decode.c:29-85 | the written value is right on every host exactly under a guard on the form, amount and Rs |
| ShifterLaws.WrittenCarryExact | decode.c:29-85 | for every operand and amount the written carry is right on every host exactly under a guard on the form, amount, Rs, Rm and the registers; for LSL #0 exactly when the low byte of Rs is at least 32 |
| ShifterLaws.LslCarry | decode.c:36-47 | LSL's last bit out is bit 32 - n of Rm |
| ShifterLaws.LsrPlaces | decode.c:48-57 | LSR by n is division by 2^n and its carry bit n - 1 |
| ShifterLaws.AsrPlaces | decode.c:58-73 | ASR by n in closed form, with its carry |
| ShifterLaws.AsrFloors | decode.c:58-73 | ASR by any n is floor division of the signed value by 2^n |
| ShifterLaws.RorPlaces | decode.c:74-85 | ROR by n in closed form, with its carry |
| ShifterLaws.RorReduced | decode.c:74-85 | rotations repeat every 32 places, carry included |
| Decode.Shift | decode.c:19-91 | the method against the tabulated shifter, as written and repaired |
| Decode.CaseLsl | decode.c:36-47 | the LSL case |
| Decode.CaseLsr | decode.c:48-57 | the LSR case |
| Decode.CaseAsr | decode.c:58-73 | the ASR case |
| Decode.CaseRor | decode.c:74-85 | the ROR case |
| FlagLaws.WrittenFlagsExact | arm_data_processing.c:165-249 | as written arithmetic always clears V, N is always right, and Z, C and V are right exactly under stated conditions |
| FlagLaws.WrittenFlagsClosed | arm_data_processing.c:110-144 | closed forms of the written C and V: V is 0, SBC and RSC set C, sums carry above 33 |
| FlagLaws.RepairedFlagsExact | arm_data_processing.c:165-249 | repaired, all four flags of arithmetic are those of exact integer arithmetic |
| FlagLaws.LogicalFlagsExact | arm_data_processing.c:158-196 | the eight logical operations set N by the result, take C from the shifter and keep V; Z is right for TST and TEQ, and otherwise exactly when the result is 0 if and only if Rd is r0, or with the repair |
| FlagLaws.RepairedLogicalFlags | arm_data_processing.c:186-196 | repaired, a logical operation on a shifted register computes with the operand of section A5.1 and leaves the last bit shifted out in the C of the CPSR |
| FlagLaws.WrittenLogicalCarryExact | decode.c:29-85 | as written that C is right on every host exactly under the shifter's guard |
| FlagLaws.RestoreExact | arm_data_processing.c:179-262 | with S and the PC as destination the CPSR stays: the SPSR is restored exactly when the two are equal |
| FlagLaws.RepairedFlagsMeetManual | arm_data_processing.c:197-249 | carry, borrow and overflow formulas, chained ones included, against exact integers |
| FlagLaws.WrittenCompareExact | arm_data_processing.c:165-170 | after a written CMP each code decides its order exactly under a guard: EQ and NE always, signed orders without overflow, unsigned ones when the fields order like the operands |
| FlagLaws.RepairedCompareDecides | decode.c:93-115 | after a repaired CMP every order is decided, HI exactly for unequal operands |
| FlagLaws.ManualCompareDecides | decode.c:93-115 | with HI read as C and not Z all ten orders are decided after a repaired CMP, HI included |
| FlagLaws.ManualComplements | decode.c:98-112 | and every even code up to LE is the opposite of the odd one after it |
| FlagLaws.HiExact | decode.c:108 | line 108 reads HI as the manual does exactly when Z is clear |
| FlagLaws.ComplementsExact | decode.c:98-112 | even and odd codes up to LE are opposite, HI and LS exactly when Z is clear |
| FlagLaws.ConditionBits | decode.c:93-115 | EQ to VC, AL and the code 15 on the bits of the CPSR |
| FlagLaws.SignCodes | decode.c:103-104 | after any instruction that sets flags MI passes for a negative result and PL for the others, as written |
| FlagLaws.OverflowCodes | decode.c:105-106 | after arithmetic VS passes exactly when the signed result leaves the word if repaired, and as written never |
| FlagLaws.FlagsLeft | arm_data_processing.c:266-296 | the flags, the result in Rd and the mode after any instruction that sets flags |
| LongSums.LongExact | arm_data_processing.c:197-236 | repaired, ADDS and ADCS, or SUBS and SBCS, dispatched one after the other on registers that do not overwrite later operands leave the exact sum, or difference, of the numbers in the first state, and its carry or borrow in C |
| LongSums.WrittenLongExact | arm_data_processing.c:110-236 | as written such a run is exact exactly when the register numbers carry or borrow like the operands in the first state |
| LongSums.WrittenSumsExact | arm_data_processing.c:110-116 | for sums: exactly when no two words carry |
| LongSums.WrittenDifferencesExact | arm_data_processing.c:118-236 | for differences: exactly when the first register numbers order like the first words, the second words do not borrow with that borrow, and no later words do |
| LongSums.RunSpells | arm_data_processing.c:266-296 | the executed run: operands from the first state, results and C in the last |
| MemorySums.MemoryExact | arm_data_processing.c:197-236 | repaired, a program of LDR, LDR, ADCS or SBCS (first ADDS or SUBS) and STR for each word, with pointers that move on, leaves the exact sum or difference of two numbers in memory, of any length, and its carry or borrow in C; in place too |
| MemorySums.WrittenMemoryExact | arm_data_processing.c:110-236 | as written it is exact exactly when the numbers of the two working registers carry or borrow like the words in the first memory |
| MemorySums.WrittenMemorySumsExact | arm_data_processing.c:110-116 | for sums: exactly when no two words carry |
| MemorySums.RunWrites | arm_load_store.c:260-308 | the program writes the words of the result and no other byte, and moves the pointers past their blocks |
| MemorySums.DispatchedPut | arm_load_store.c:260-280 | STR rd, [rn], #4 decodes to a store at the base and a move of the base |
| MultiWord.SumExact | arm_data_processing.c:197-223 | a run of ADDS and ADCS, with anything that keeps C in between, is the exact sum with final carry exactly when every carry on the way is exact |
| MultiWord.DifferenceExact | arm_data_processing.c:186-236 | the same for SUBS and SBCS |
| MultiWord.RepairedSum | arm_data_processing.c:46-67 | repaired, every run of ADDS and ADCS is the exact n-word sum with final carry |
| MultiWord.RepairedDifference | arm_data_processing.c:46-67 | repaired, every run of SUBS and SBCS is the exact n-word difference with final borrow |
| MultiWord.WrittenCarryOut | arm_data_processing.c:110-236 | the carry of one written link as a function of the fields and the carry taken in |
| MultiWord.WrittenSumExact | arm_data_processing.c:197-223 | as written a run of additions is exact exactly when every link's fields carry as its operands do |
| MultiWord.WrittenDifferenceExact | arm_data_processing.c:186-236 | the same for subtractions |
| OperandLaws.AluExact | arm_data_processing.c:32-108 | against exact integers modulo 2^32 and operations on the 32 bits, fourteen operations are right; BIC and MVN exactly for the stated operands |
| OperandLaws.ResultIsUnique | arm_data_processing.c:32-108 | what section A3.4 asks of a result determines it |
| OperandLaws.ImmediateExact | arm_data_processing.c:276-284 | the unrotated immediate is right exactly when the rotate field or the immediate is 0; its carry exactly without a rotation or when a 0 is rotated in last |
| OperandLaws.OffsetExact | arm_load_store.c:245-265 | a 16-bit offset gives the right address exactly for registers below 2^16 |
| OperandLaws.WordAddressExact | arm_load_store.c:246-310 | the address and the moved base of a word or byte transfer are those of section A5.2 exactly for immediate offsets and register offsets, scaled ones included, below 2^16, the address also for post-indexed forms |
| DataProcessing.ArmDataProcessing | arm_data_processing.c:266-296 | the whole new state |
| DataProcessing.Calcul | arm_data_processing.c:32-108 | the result, or alu_out for the four tests |
| DataProcessing.MajFlags | arm_data_processing.c:147-263 | only the four flags change, also when a PC write restores the CPSR for a moment |
| DataProcessing.ByOperation | arm_data_processing.c:186-253 | C and V by operation |
| DataProcessing.Adc | arm_data_processing.c:212-223 | C and V of ADC, V reading the updated C as written |
| DataProcessing.Sbc | arm_data_processing.c:225-249 | C and V of SBC and RSC |
| DataProcessing.PutFlags | arm_data_processing.c:258-261 | setting and clearing four bits replaces the flags and keeps the rest |
| DataProcessing.PackPack | arm_data_processing.c:258-261 | flags packed are read back, and the last packing counts |
| BranchLaws.BranchLands | arm_branch_other.c:29-49 | a branch with any encodable offset lands on its target exactly when it is forward or line 32 is repaired; backward as written 0x24000000 too high |
| BranchLaws.CallAndReturn | arm_branch_other.c:39-46 | BL, and MOV pc, lr in any later state with the same LR, return to the next instruction |
| BranchLaws.WrittenExtension | arm_branch_other.c:29-37 | what the hexadecimal constant makes of a negative offset |
| Branch.ArmBranch | arm_branch_other.c:39-49 | the whole new state and the status |
| Branch.ArmCoprocessorOthersSwi | arm_branch_other.c:51-60 | SWI 0x123456 ends the simulation and nothing else does |
| LoadStore.WordByteLoadStore | arm_load_store.c:239-343 | the whole new state: base first, then the transfer, refused loads included |
| LoadStore.MiscellaneousLoadStore | arm_load_store.c:345-392 | the whole new state |
| LoadStore.LoadStoreHalfDoubleByte | arm_load_store.c:395-484 | the whole new state; the double-word cases change nothing |
| LoadStore.ExtendByte | arm_load_store.c:453-461 | as written the byte itself, repaired its sign extension |
| LoadStore.ExtendHalf | arm_load_store.c:468-476 | the same for halves |
| SubWordLaws.StoreThenLoadHalf | arm_load_store.c:398-479 | STRH then LDRH is the value mod 2^16; LDRSH its signed value exactly when bit 15 is clear or the extension is repaired |
| SubWordLaws.PostIndexedDoesNothing | arm_load_store.c:366-380 | the ordinary post-indexed form of halves and signed bytes changes nothing |
| SubWordLaws.HalfAddressExact | arm_load_store.c:360-384 | with the I bit read the other way round, the address and the moved base are those of section A5.3 exactly when the register and the field spell the same offset, the address also for post-indexed forms |
| SubWordLaws.StoreThenLoadByte | arm_load_store.c:260-341 | STRB of any addressing mode, then LDRB, is the value mod 2^8; LDRSB its signed value exactly when bit 7 is clear or the extension is repaired |
| SubWordLaws.StoreHalf | arm_load_store.c:398-404 | STRH changes the two bytes at its address and no other |
| SubWordLaws.StoreByte | arm_load_store.c:260-318 | STRB changes the byte at its address and no other; post-indexed with W it stores the user register |
| SubWordLaws.DoubleWordsDoNothing | arm_load_store.c:405-439 | LDRD and STRD transfer nothing, for any address |
| Instruction.ArmExecuteInstruction | arm_instruction.c:32-88 | fetch, condition and dispatch against the step function; the result is always 0 |
| Instruction.ArmStep | arm_instruction.c:90-97 | one step |
| Instruction.ArmLoadStore | arm_load_store.c:61-71 | which family of transfers an instruction belongs to |
| Core.ArmCore.Fetch | arm_instruction.c:35-36 | the word at the PC; the PC moves on by 4 even when the read is refused |
| Departures.CarryDeparts | arm_data_processing.c:110-116 | an executed ADDS that carries and leaves C clear |
| Departures.NoCarryDeparts | arm_data_processing.c:110-116 | an executed ADDS that does not carry and leaves C set |
| Departures.OverflowDeparts | arm_data_processing.c:165-170 | an executed CMP that overflows, after which GE passes |
| Departures.NegationDeparts | arm_data_processing.c:97-103 | an executed MVN and an executed BIC with logical negation |
| Departures.ZeroDeparts | arm_data_processing.c:182-185 | MOVS r1, #0 leaves Z clear |
| Departures.HiDeparts | decode.c:108 | HI passes after CMP of equal operands |
| Departures.BorrowDeparts | arm_data_processing.c:225-236 | an SBCS that borrows and leaves C set |
| Departures.RestoreDeparts | arm_data_processing.c:179-262 | MOVS pc, lr in SVC mode keeps the CPSR |
| Departures.PcLoadDeparts | arm_load_store.c:155-161 | LDMIA r4, {pc} leaves 0 in the PC |
| Departures.UserWriteDeparts | registers.c:113-117 | a user write in SVC mode that reaches SVC's R13 |
| Departures.ImmediateDeparts | arm_data_processing.c:276-284 | MOV r0, #0x100 moves 1 |
| Departures.OffsetDeparts | arm_load_store.c:245-257 | a register offset of 2^16 that counts as 0 |
| Departures.HalfDeparts | arm_load_store.c:360-380 | an immediate half offset taken for a register, and a post-indexed LDRH that does nothing |
| Departures.ShiftDeparts | decode.c:48-57 | LSR #32 that yields 1 |
| Departures.ShiftCarryDeparts | decode.c:48-57 | a carry that is lost |
| Departures.BranchDeparts | arm_branch_other.c:29-37 | a branch to itself that is not one |
| Departures.BankDeparts | registers.c:144-151 | a user write seen in SVC mode |
| Departures.SignDeparts | arm_load_store.c:465-479 | an LDRSH whose half is not extended |
| Departures.GuardDeparts | memory.c:56-59 | for every memory an access past the array that is not refused |

## Left out

- Exceptions, MRS and MSR: arm_execute_instruction always returns 0, so arm_step never raises an exception, and arm_miscellaneous cannot be reached from the dispatch.
- The status codes of the transfer and data-processing functions: the dispatch drops them. Where they decide what happens inside, they are modelled.
- The cycle counter, traces, printed messages, the gdb server and its protocol.
- Allocation failures, destruction, register and mode names, in_a_privileged_mode, memory_get_size.
- The contents malloc leaves in registers and memory: the constructors promise nothing about them.
- What happens after an access outside the memory array: the model stops there.
- Hosts that resolve the same undefined shift differently on different occasions: a host gives one result for each operand and count.
- ShifterLaws.WrittenValueExact: the guard is for all hosts at once; for one host the written value may be right more often.
- ShifterLaws.WrittenCarryExact: likewise for all hosts at once.
- FlagLaws.RepairedLogicalFlags: operands shifted by a register or field only; the carry of an immediate is in OperandLaws.ImmediateExact and has no repair.
- LongSums.LongExact: words in R0 to R14, so as many as there are registers for; MemorySums has numbers of any length.
- MemorySums.MemoryExact: the instructions of the words are dispatched in a row, without the counter and branch of a loop around them.
- BlockLaws.WrittenPairExact: memories so small or so large that an access gets past the guard are shut out, as the model stops there.
- TransferLaws.SingleLoad: of register offsets those with bit 4 clear; with bit 4 set the words are no transfers in section A3.
- FormLaws.BlockStore: blocks that lie in memory; refused and wrapped places are covered for loads by BlockLaws.LoadAnywhere, for stores only where all are refused, by BlockLaws.WrittenStoreRefused.
- FlagLaws.WrittenFlagsExact: in modes the processor does not have, R13 and R14 cannot be read back, and only comparisons would be covered; the modes of section A2.4 are required.
