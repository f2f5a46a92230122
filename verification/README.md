# LC-3 simulator engines in Dafny

This project models the execution engines of a small LC-3 instruction-set simulator. The repository implements the simulator twice, and each implementation is its own set of modules. The two are deliberately not unified.

**The Rust engine** (`rust_implementation/src`):
- `Bitwise` holds shared integer arithmetic:
  - powers of two;
  - bit fields of unbounded two's-complement integers;
  - bitwise AND and NOT.
- `Utils` models `bits` and `bits_signed` for `i32`, and `as_usize`.
- `ConditionCodes` models the three-valued condition code and its flag bits.
- `NiceVector` models the fixed-length, zero-initialised storage vector and its index-checked reads and writes.
- `Program` models the program loader on lines already read from the file. It covers:
  - the whitespace tokens;
  - `i32::from_str_radix(_, 16)`;
  - the header and the body;
  - the `catch_unwind`.
- `Machine` models the CPU state and the operations on it that are not instructions:
  - `CPU::new` and `load_program`, including the `u16` wrap of the load address;
  - `set_dr`;
  - the three debug setters.
- `Operations` models the opcode table, the sixteen instruction handlers and the trap routines.
- `Cycles` models the fetch/decode/execute cycle and `run_many_instruction_cycles`.
- `Scenarios` states whole cycles on particular instruction words.

Registers and memory of the Rust engine hold `i32` values and are never cut to 16 bits. A Rust call either returns `Ok`, returns an `LC3Error`, or panics. The panic cases are explicit outcomes in the model:
- an index outside a vector, negative indices included;
- an `i32` addition that overflows, as in a build with overflow checks on;
- an `unwrap` on a missing value.

A `PUTS` over a memory with no zero cell never ends, and the model says so as its own outcome.

**The C engine** (`c_implementation/src/main.c`):
- `CWords` models the `short` Word, the `unsigned short` Address and the conversions into them, as GCC performs them. It also models `bit_select_us` and `bit_select_s`.
- `CSimulator` models:
  - the CPU state;
  - `update_condition_code` and `get_condition_num`;
  - the sixteen `instr_*` handlers and the traps.
- `CCycle` models:
  - `one_instruction_cycle`;
  - `many_instruction_cycles` with its cap of 100 cycles;
  - the reset done by `initialize_control_unit`;
  - `set_address_value` and `set_register_value`.
- `CScenarios` states cycles on particular instruction words.

In the C engine, an array index outside its array is undefined behaviour, and so is reading the `char` left unset by a failed `scanf`. Both are an explicit `Undefined` outcome rather than a guessed value.

Console input is the sequence of bytes still unread. Console output is the sequence of items printed so far.

Where the comments and the code disagree, the model follows the code:
- `CWords.SignedExample` proves that `bit_select_s(50, 4, 1)` returns 9. The comment above the function announces -9, but bit 3 of 50 is clear.
- `Utils.BitsSignedExamples` proves the examples written above `bits_signed`. Those examples do agree with the code, including its sign test one bit above the field.

Behaviours of the source that look unintended are proved as written, not corrected:
- In Rust, the sign of the immediate of ADD/AND and of the JSR offset is read from the mode bit (`Operations.Imm5Field`, `Operations.Offset11Field`).
- In both engines, STR adds the base register's number rather than its contents.
- In both engines, `JSRR R7` does not move `pc`.
- In C, BRn branches on a positive code.

## Model

| member | source | states |
|---|---|---|
| ConditionCodes.Bit | rust_implementation/src/condition_code.rs:8-14 | N, Z and P get the flags 4, 2 and 1: a single set bit within three bits, each code its own |
| ConditionCodes.BitInjective | rust_implementation/src/condition_code.rs:8-14 | two codes have the same flag exactly when they are the same code |
| ConditionCodes.FromValue | rust_implementation/src/condition_code.rs:16-24 | the code is N exactly for negative values, Z exactly for zero and P exactly for positive values |
| ConditionCodes.FromValueSameSign | rust_implementation/src/condition_code.rs:16-24 | two values get the same code exactly when they have the same sign |
| NiceVector.New | rust_implementation/src/nice_vector.rs:11-15 | a new vector has exactly `len` cells, all zero |
| NiceVector.Index | rust_implementation/src/nice_vector.rs:20-22 | a read succeeds exactly for 0 <= i < length and returns cell i; a negative index becomes a huge `usize` and panics |
| NiceVector.IndexMut | rust_implementation/src/nice_vector.rs:26-28 | a write succeeds exactly inside the vector, keeps its length, sets cell i and leaves every other cell alone |
| NiceVector.ReadAfterWrite | rust_implementation/src/nice_vector.rs:20-28 | reading the written index returns the written value; any other index reads as before |
| Utils.AsUsize | rust_implementation/src/utils.rs:191-193 | a non-negative index converts unchanged; a negative one becomes at least 2^63, past any vector |
| Utils.Bits | rust_implementation/src/utils.rs:144-152 | the mask-and-shift formula yields bits left..right of the value as an unsigned number, for negative values too |
| Bitwise.MaskAndShift | rust_implementation/src/utils.rs:147-149 | `(v & (((1 << n) - 1) << lo)) >> lo` is the field hi..lo of v, for every integer v |
| Bitwise.FieldRange | rust_implementation/src/utils.rs:144-152 | an unsigned selection lies in [0, 2^(left-right+1)) |
| Utils.BitsOfWord | rust_implementation/src/utils.rs:144-152 | for 0 <= x < 65536, `bits(x, 15, 0)` is x and `bits(x, 15, 12)` is in 0..15 |
| Utils.BitsExamples | rust_implementation/src/utils.rs:33-39 | the unsigned examples 59→27, 50→25 and 10→5 hold |
| Utils.BitsSmallExamples | rust_implementation/src/utils.rs:33-39 | the unsigned examples 5→2, 1→1 and 0→0 hold |
| Utils.BitsSigned | rust_implementation/src/utils.rs:160-175 | the signed selection equals a reference reading whose sign is bit (left-right)+1 counted from bit 0, negative values being the narrower field minus 2^(left-right) |
| Utils.SignTest | rust_implementation/src/utils.rs:165-168 | `self & (1 << ((left - right) + 1)) == 0` tests exactly bit (left-right)+1 |
| Utils.SingleBitNeverNegative | rust_implementation/src/utils.rs:163-171 | a one-bit signed selection equals the unsigned one, so it is 0 or 1 |
| Utils.NegativeSelection | rust_implementation/src/utils.rs:172-174 | `-(bits(!v, l-1, r) + 1)` is `bits(v, l-1, r) - 2^(l-r)` and lies in [-2^(l-r), -1] |
| Utils.SignedFieldNegative | rust_implementation/src/utils.rs:165-174 | when the sign test fires the result is negative and at least -2^(l-r) |
| Utils.SignedFieldRange | rust_implementation/src/utils.rs:160-175 | a signed selection wider than one bit lies in [-2^(l-r), 2^(l-r+1)) |
| Utils.BitsSignedExamples | rust_implementation/src/utils.rs:42-50 | all eight signed examples written above the selections hold, (50,4,1) = -7 among them |
| Program.FirstToken | rust_implementation/src/program.rs:17 | `split_whitespace().next()` is absent exactly on a blank line and is otherwise a non-empty, whitespace-free token |
| Program.FirstTokenOfPaddedLine | rust_implementation/src/program.rs:17 | the first token of leading whitespace, a token and a rest that starts with whitespace is that token |
| Program.FromStrRadix16 | rust_implementation/src/program.rs:21-24 | base-16 parsing yields only `i32` values |
| Program.ParseHexRoundTrip | rust_implementation/src/program.rs:21-24 | every `i32` printed in hexadecimal parses back to itself |
| Program.LineValueIgnoresRest | rust_implementation/src/program.rs:16-17 | text after the first token does not change a line's value |
| Program.ParseBody | rust_implementation/src/program.rs:23-25 | the body parses exactly when every line does, giving one word per line in file order |
| Program.FromLines | rust_implementation/src/program.rs:14-31 | it panics exactly when the first line is missing or blank; a bad header gives `BadProgramHeader`, otherwise a failure is `BadProgramInstructions`; the header of a result is the first line's value |
| Program.FromLinesBody | rust_implementation/src/program.rs:23-39 | a file loads exactly when every line holds a number; the instructions are the remaining lines' numbers, in order |
| Machine.New | rust_implementation/src/cpu.rs:27-36 | 65536 zero cells, 8 zero registers, running, `pc` = `ir` = 0 and code Z |
| Machine.StoreWords | rust_implementation/src/cpu.rs:42-46 | the store loop with a wrapping `u16` address: word k lands at addr + k mod 65536 unless a later word overwrites it; cells past the words keep their values |
| Machine.LoadProgram | rust_implementation/src/cpu.rs:38-47 | `pc` becomes the header unchanged, instruction k is at (header + k) mod 65536, other cells and all registers are kept |
| Machine.LoadedCell | rust_implementation/src/cpu.rs:38-47 | a loaded cell holds the last word written to it, and a cell outside the loaded range keeps its value |
| Machine.SetDr | rust_implementation/src/cpu.rs:75-78 | exactly register dr is written, and the code becomes the sign of the value |
| Machine.SetPcAddress | rust_implementation/src/cpu.rs:117-120 | `pc` takes the address and the machine runs; nothing else changes |
| Machine.SetMemoryAddressValue | rust_implementation/src/cpu.rs:122-124 | one cell is written, or the call panics when the address is outside memory |
| Machine.SetRegisterValue | rust_implementation/src/cpu.rs:126-128 | one register is written, or the call panics outside 0..7; the code is never touched |
| Machine.SetRegisterValueIsSetDrWithoutFlags | rust_implementation/src/cpu.rs:75-128 | the debug setter is `set_dr` with the condition code put back |
| Operations.FromCode | rust_implementation/src/operation.rs:15-35 | codes 0..15 decode to the operation in that table position, anything above to `UnrecognizedOpCode` with the code |
| Operations.FromCodeRoundTrip | rust_implementation/src/operation.rs:15-35 | decoding an operation's code gives the operation back |
| Operations.FlagTest | rust_implementation/src/operation.rs:68 | `nzp & cc.bit() != 0` holds exactly when the nzp field selects the code |
| Operations.NzpFlags | rust_implementation/src/operation.rs:65-68 | the flags of `bits(11, 9)` are instruction bits 11 (n), 10 (z) and 9 (p) |
| Operations.Offset9Field | rust_implementation/src/operation.rs:66 | the nine-bit offset takes its sign from bit 9, not bit 8 |
| Operations.BrStep | rust_implementation/src/operation.rs:64-71 | `pc` moves by the offset, with no wrap, exactly when the field selects the code; nothing else changes |
| Operations.BranchSemantics | rust_implementation/src/operation.rs:64-71 | `instr_br`, modelled by `Operations.InstrBr`, agrees with the reference branch rule on every fetched state |
| Operations.Imm5Field | rust_implementation/src/operation.rs:83 | in immediate mode the operand's sign test reads the mode bit, so the operand is the low four bits minus 16 |
| Operations.AddStep | rust_implementation/src/operation.rs:73-87 | the sum goes to DR with the code of its sign; a sum outside `i32` panics |
| Operations.InstrAddFields | rust_implementation/src/operation.rs:73-87 | `Operations.InstrAdd`, the handler itself, is the ADD step on its fields: ADD reads DR at bits 11..9, SR1 at 8..6 and SR2 or the immediate by bit 5 |
| Operations.LdStep | rust_implementation/src/operation.rs:89-95 | DR := mem[pc + offset] with its code, or a panic outside memory |
| Operations.InstrLdFields | rust_implementation/src/operation.rs:89-95 | `Operations.InstrLd`, the handler itself, is the LD step on its fields: LD reads DR at bits 11..9 and the nine-bit offset |
| Operations.StStep | rust_implementation/src/operation.rs:97-102 | mem[pc + offset] := SR and nothing else changes, or a panic outside memory |
| Operations.InstrStFields | rust_implementation/src/operation.rs:97-102 | `Operations.InstrSt`, the handler itself, is the ST step on its fields: ST reads SR at bits 11..9 and the nine-bit offset |
| Operations.JsrStep | rust_implementation/src/operation.rs:104-116 | R7 := pc first; then `pc` moves by the offset, or takes the base register as just updated; the code is untouched |
| Operations.Offset11Field | rust_implementation/src/operation.rs:110 | in JSR mode the offset's sign test reads the mode bit, so the offset is the low ten bits minus 1024 |
| Operations.InstrJsrFields | rust_implementation/src/operation.rs:104-116 | `Operations.InstrJsr`, the handler itself, is the JSR step on its fields: JSR reads the mode at bit 11 and the base at bits 8..6 |
| Operations.AndStep | rust_implementation/src/operation.rs:118-134 | the bitwise AND goes to DR with the code of its sign |
| Operations.InstrAndFields | rust_implementation/src/operation.rs:118-134 | `Operations.InstrAnd`, the handler itself, is the AND step on its fields: AND reads its fields as ADD does |
| Operations.LdrStep | rust_implementation/src/operation.rs:136-143 | DR := mem[BaseR + offset]; the sum panics outside `i32`, the read outside memory |
| Operations.Offset6Field | rust_implementation/src/operation.rs:138 | the six-bit offset of LDR takes its sign from bit 6 |
| Operations.InstrLdrFields | rust_implementation/src/operation.rs:136-143 | `Operations.InstrLdr`, the handler itself, is the LDR step on its fields: LDR reads DR, BaseR and the six-bit offset |
| Operations.StrStep | rust_implementation/src/operation.rs:145-151 | the address is the base register's number plus the unsigned offset, within 0..70; one cell is written |
| Operations.InstrStrFields | rust_implementation/src/operation.rs:145-151 | `Operations.InstrStr`, the handler itself, is the STR step on its fields: STR reads the offset unsigned with `bits(5, 0)` and never reads the base register's contents |
| Operations.NotStep | rust_implementation/src/operation.rs:157-163 | DR := !SR = -SR - 1 with its code |
| Operations.InstrNotFields | rust_implementation/src/operation.rs:157-163 | `Operations.InstrNot`, the handler itself, is the NOT step on its fields: NOT reads DR at bits 11..9 and SR at 8..6 |
| Operations.LdiStep | rust_implementation/src/operation.rs:165-171 | DR := mem[mem[pc + offset]]; either index outside memory panics |
| Operations.InstrLdiFields | rust_implementation/src/operation.rs:165-171 | `Operations.InstrLdi`, the handler itself, is the LDI step on its fields: LDI reads DR and the nine-bit offset |
| Operations.StiStep | rust_implementation/src/operation.rs:173-179 | mem[mem[pc + offset]] := SR; either index outside memory panics |
| Operations.InstrStiFields | rust_implementation/src/operation.rs:173-179 | `Operations.InstrSti`, the handler itself, is the STI step on its fields: STI reads SR and the nine-bit offset |
| Operations.JmpStep | rust_implementation/src/operation.rs:181-184 | `pc` := BaseR and nothing else changes |
| Operations.InstrJmpFields | rust_implementation/src/operation.rs:181-184 | `Operations.InstrJmp`, the handler itself, is the JMP step on its fields: JMP reads BaseR at bits 8..6 |
| Operations.LeaStep | rust_implementation/src/operation.rs:190-196 | DR := pc + offset with its code |
| Operations.InstrLeaFields | rust_implementation/src/operation.rs:190-196 | `Operations.InstrLea`, the handler itself, is the LEA step on its fields: LEA reads DR and the nine-bit offset |
| Operations.InstrTrap | rust_implementation/src/operation.rs:198-211 | the low eight bits pick GETC/IN, OUT, PUTS or HALT; any other code is `UnsupportedTrapCode(code)` with the state unchanged |
| Operations.TrapGetchar | rust_implementation/src/operation.rs:219-222 | R0 := the next input byte, which is consumed; the code is untouched; no input left panics |
| Operations.TrapOut | rust_implementation/src/operation.rs:224-226 | prints the low eight bits of R0 and changes no state |
| Operations.PutsScan | rust_implementation/src/operation.rs:228-235 | the cells from an address, wrapping past 0xFFFF, up to the first zero cell; absent when no zero comes within the bound |
| Operations.TrapPuts | rust_implementation/src/operation.rs:228-235 | prints each cell from R0 as a `u16` up to the first zero as a decimal number; never ends when no cell of memory is zero; no state changes |
| Operations.TrapInput | rust_implementation/src/operation.rs:237-240 | IN prints its prompt, then sets R0 to the next input byte, consumes it and leaves the condition code, memory, `pc`, `ir` and `running` alone; with no input left the `unwrap` panics |
| Operations.TrapHalt | rust_implementation/src/operation.rs:242-245 | only `running` changes, to false |
| Operations.Execute | rust_implementation/src/operation.rs:37-58 | RTI fails with `RtiNotSupported` and ERR with `UnusedOpCode`, both changing nothing; only TRAP touches the console; any failure leaves the state unchanged |
| Cycles.Fetch | rust_implementation/src/cpu.rs:53-58 | `ir` := mem[pc] and `pc` moves on by one, reset to 0 past 0xFFFF; a `pc` outside memory panics |
| Cycles.Decode | rust_implementation/src/cpu.rs:61-62 | the decoded operation's code is bits 15..12 of `ir`, so decoding never fails |
| Cycles.Cycle | rust_implementation/src/cpu.rs:49-71 | a stopped machine gives `CpuNotRunning` and no change; a failing operation leaves the fetched `ir` and `pc` in place |
| Cycles.CycleExecutes | rust_implementation/src/cpu.rs:53-71 | a running cycle executes, on the fetched state, the operation of bits 15..12 of mem[pc] |
| Cycles.CodeInjective | rust_implementation/src/operation.rs:15-35 | two operations with the same code are the same operation |
| Cycles.Loop | rust_implementation/src/cpu.rs:136-143 | zero cycles change nothing; the first cycle that fails or halts ends the loop with its outcome |
| Cycles.LoopStopsAtFirstHaltOrError | rust_implementation/src/cpu.rs:136-143 | the loop is the reference run cut at the first cycle that fails or halts: at most n cycles, every earlier one live |
| Cycles.LoopPreserves | rust_implementation/src/cpu.rs:136-143 | a property every normal cycle keeps holds after a normal loop |
| Cycles.RunLoop | rust_implementation/src/cpu.rs:137-140 | the `for` with its `?` and `break` computes the loop |
| Cycles.Steps | rust_implementation/src/cpu.rs:136-143 | zero cycles change nothing; a stopped machine reports `CpuNotRunning` |
| Cycles.StepsKeepValid | rust_implementation/src/cpu.rs:136-143 | a run that ends normally ends in a valid state |
| Cycles.RunManyInstructionCycles | rust_implementation/src/cpu.rs:136-143 | the loop over the `u32` count computes the run of that many cycles |
| Scenarios.HaltStopsTheMachine | rust_implementation/src/operation.rs:242-245 | a cycle on HALT clears `running` only, a run stops there, and the next cycle reports `CpuNotRunning` |
| Scenarios.UnknownTrapIsAnError | rust_implementation/src/operation.rs:198-211 | TRAP x99 fails with `UnsupportedTrapCode(0x99)` after the fetch |
| Scenarios.PcWrapsAndStays | rust_implementation/src/cpu.rs:53-63 | fetching at 0xFFFF moves `pc` to 0, which stays even though RTI fails |
| Scenarios.AddImmediateOneSubtractsFifteen | rust_implementation/src/operation.rs:73-87 | ADD R1, R1, #1 subtracts 15 |
| Scenarios.JsrrR7StaysPut | rust_implementation/src/operation.rs:104-116 | JSRR R7 leaves `pc` after the instruction and saves it in R7 |
| CWords.ToShort | c_implementation/src/main.c:20 | storing an `int` in a `Word` gives the `short` congruent to it modulo 2^16 |
| CWords.ToAddress | c_implementation/src/main.c:21 | storing an `int` in an `Address` gives the `unsigned short` congruent to it modulo 2^16 |
| CWords.ConversionsUnique | c_implementation/src/main.c:20-21 | each conversion is the only value of its type in the class of its argument |
| CWords.IncrementShort | c_implementation/src/main.c:666-667 | the `Word` index of `trap_puts` goes from 0x7FFF to -0x8000 |
| CWords.ToByte | c_implementation/src/main.c:660-663 | `%c` prints the low eight bits |
| CWords.SignedChar | c_implementation/src/main.c:654-656 | a byte read into a signed `char` keeps its low eight bits and lies in -128..127 |
| CWords.BitSelectUs | c_implementation/src/main.c:698-704 | the result is bits left..right of the value converted to `Word`, unchanged for fields under 16 bits |
| CWords.UnsignedExample | c_implementation/src/main.c:696-697 | `bit_select_us(50, 4, 1)` is 9 |
| CWords.BitSelectS | c_implementation/src/main.c:708-715 | the sign test is bit left-right; clear gives the unsigned field, set gives the negated field of -value |
| CWords.SelectionIsSignExtension | c_implementation/src/main.c:708-715 | for fields starting at bit 0, the signed selection is two's-complement sign extension |
| CWords.SignedExample | c_implementation/src/main.c:706-715 | `bit_select_s(50, 4, 1)` returns 9, not the -9 of its comment |
| CWords.SignExtensionExample | c_implementation/src/main.c:708-715 | the five-bit field of -3 reads back as -3 |
| CSimulator.UpdateConditionCode | c_implementation/src/main.c:417-424 | the code becomes N, Z or P exactly by the value's sign; nothing else changes |
| CSimulator.GetConditionNum | c_implementation/src/main.c:428-437 | N, Z and P give 1, 2 and 4 |
| CSimulator.ConditionNumReversesRust | c_implementation/src/main.c:428-437 | the C flag of a code times its Rust flag is 4: N and P trade places |
| CSimulator.SetDr | c_implementation/src/main.c:447-460 | DR holds the value converted to `short`, and the code follows the stored value |
| CSimulator.BrStep | c_implementation/src/main.c:485-511 | only `pc` can change |
| CSimulator.BranchFlags | c_implementation/src/main.c:502 | `branch_type & num != 0` holds exactly when the code's bit among bits 9 (N), 10 (Z), 11 (P) is set |
| CSimulator.BranchSemantics | c_implementation/src/main.c:485-511 | BR, modelled by `CSimulator.InstrBr`, adds the sign-extended offset to `pc` modulo 2^16 exactly when that bit is set |
| CSimulator.Operand2 | c_implementation/src/main.c:445-454 | the second operand of ADD and AND is a `short` |
| CSimulator.AddStep | c_implementation/src/main.c:439-461 | the sum converted to `short` goes to DR with the code of the stored value |
| CSimulator.InstrAddFields | c_implementation/src/main.c:439-461 | `CSimulator.InstrAdd`, the handler itself, is the ADD step on its fields: ADD reads DR, SR1 and SR2 or the sign-extended immediate by bit 5 |
| CSimulator.AndShort | c_implementation/src/main.c:463-482 | the AND of two `short`s is a `short` |
| CSimulator.AndStep | c_implementation/src/main.c:463-482 | the AND goes to DR unchanged with its code |
| CSimulator.InstrAndFields | c_implementation/src/main.c:463-482 | `CSimulator.InstrAnd`, the handler itself, is the AND step on its fields: AND reads its fields as ADD does |
| CSimulator.JmpStep | c_implementation/src/main.c:518-523 | `pc` takes BaseR modulo 2^16 and nothing else changes |
| CSimulator.InstrJmpFields | c_implementation/src/main.c:518-523 | `CSimulator.InstrJmp`, the handler itself, is the JMP step on its fields: JMP reads BaseR at bits 8..6 |
| CSimulator.JsrStep | c_implementation/src/main.c:525-539 | R7 := pc first; then `pc` moves by the offset modulo 2^16, or takes BaseR, so JSRR R7 stays put |
| CSimulator.ShortAddressRoundTrip | c_implementation/src/main.c:529-536 | an address stored in R7 and read back as an address is unchanged |
| CSimulator.InstrJsrFields | c_implementation/src/main.c:525-539 | `CSimulator.InstrJsr`, the handler itself, is the JSR step on its fields: JSR reads the mode at bit 11, the eleven-bit offset and BaseR |
| CSimulator.LdStep | c_implementation/src/main.c:541-551 | defined exactly when pc + offset indexes memory, then DR := that cell with its code |
| CSimulator.InstrLdFields | c_implementation/src/main.c:541-551 | `CSimulator.InstrLd`, the handler itself, is the LD step on its fields: LD reads DR and the sign-extended nine-bit offset |
| CSimulator.LdiStep | c_implementation/src/main.c:553-563 | defined exactly when both indices are in memory, the inner cell being non-negative; DR := mem[mem[pc + offset]] |
| CSimulator.InstrLdiFields | c_implementation/src/main.c:553-563 | `CSimulator.InstrLdi`, the handler itself, is the LDI step on its fields: LDI reads DR and the nine-bit offset |
| CSimulator.LdrStep | c_implementation/src/main.c:565-576 | defined exactly when BaseR + offset indexes memory, then DR := that cell |
| CSimulator.InstrLdrFields | c_implementation/src/main.c:565-576 | `CSimulator.InstrLdr`, the handler itself, is the LDR step on its fields: LDR reads DR, BaseR and the six-bit offset |
| CSimulator.LeaStep | c_implementation/src/main.c:578-588 | DR := pc + offset converted to `short`, with its code |
| CSimulator.InstrLeaFields | c_implementation/src/main.c:578-588 | `CSimulator.InstrLea`, the handler itself, is the LEA step on its fields: LEA reads DR and the nine-bit offset |
| CSimulator.NotStep | c_implementation/src/main.c:590-599 | DR := ~SR with its code |
| CSimulator.InstrNotFields | c_implementation/src/main.c:590-599 | `CSimulator.InstrNot`, the handler itself, is the NOT step on its fields: NOT reads DR and SR |
| CSimulator.StStep | c_implementation/src/main.c:606-614 | defined exactly when pc + offset indexes memory, then that cell := SR and nothing else changes |
| CSimulator.InstrStFields | c_implementation/src/main.c:606-614 | `CSimulator.InstrSt`, the handler itself, is the ST step on its fields: ST reads SR and the nine-bit offset |
| CSimulator.StiStep | c_implementation/src/main.c:616-624 | defined exactly when both indices are in memory; mem[mem[pc + offset]] := SR |
| CSimulator.InstrStiFields | c_implementation/src/main.c:616-624 | `CSimulator.InstrSti`, the handler itself, is the STI step on its fields: STI reads SR and the nine-bit offset |
| CSimulator.StrStep | c_implementation/src/main.c:626-635 | the index is the base register's number plus the offset, defined exactly inside memory; one cell is written |
| CSimulator.InstrStrFields | c_implementation/src/main.c:626-635 | `CSimulator.InstrStr`, the handler itself, is the STR step on its fields: STR reads SR, the base number and the sign-extended six-bit offset, never the base register's contents |
| CSimulator.TrapGetchar | c_implementation/src/main.c:652-658 | R0 := the next byte as a signed `char`, consumed; the code is untouched; no input left is undefined |
| CSimulator.TrapOut | c_implementation/src/main.c:660-663 | prints the low eight bits of R0 and changes no state |
| CSimulator.PutsFrom | c_implementation/src/main.c:664-668 | the bytes of the cells from the `short` index up to the first zero; undefined once the index goes negative |
| CSimulator.TrapPuts | c_implementation/src/main.c:664-668 | prints the cells from R0 up to the first zero, defined exactly when a zero comes before the index wraps negative |
| CSimulator.TrapHalt | c_implementation/src/main.c:676-681 | the code becomes P and the machine stops; nothing else changes |
| CSimulator.TrapDispatch | c_implementation/src/main.c:637-650 | `instr_TRAP`, modelled by `CSimulator.InstrTrap`: x20 and x23 run GETC, x21 OUT, x22 PUTS and x25 HALT; any other code only clears `running` |
| CCycle.Fetch | c_implementation/src/main.c:303-306 | `ir` := mem[pc] and `pc` moves on modulo 2^16; the `pc > 0xffff` guard never holds |
| CCycle.Execute | c_implementation/src/main.c:308-327 | RTI and code 13 change nothing; every defined handler leaves a valid state |
| CCycle.OneInstructionCycle | c_implementation/src/main.c:296-332 | a stopped machine is unchanged; a defined cycle leaves a valid state |
| CCycle.CycleDispatches | c_implementation/src/main.c:306-327 | a running cycle runs the handler of bits 15..12 of mem[pc] on the fetched state |
| CCycle.Run | c_implementation/src/main.c:288-292 | no cycles, or a stopped machine, change nothing |
| CCycle.RunSplit | c_implementation/src/main.c:288-292 | a run of a + b cycles is a run of a followed by a run of b |
| CCycle.RunStopsAtHalt | c_implementation/src/main.c:288-292 | once a run has stopped the machine, a larger count changes nothing |
| CCycle.RunStopsAfterCycle | c_implementation/src/main.c:288-292 | a cycle that stops the machine ends the run |
| CCycle.RunPreserves | c_implementation/src/main.c:288-292 | a property every defined cycle keeps holds after a defined run |
| CCycle.RunLoop | c_implementation/src/main.c:288-292 | the `while` loop computes the run |
| CCycle.RunKeepsValid | c_implementation/src/main.c:275-293 | a defined run ends in a valid state |
| CCycle.ManyInstructionCycles | c_implementation/src/main.c:275-293 | nothing on a stopped machine or a count up to 0; a count above 100 runs 100 cycles |
| CCycle.InitializeControlUnit | c_implementation/src/main.c:122-135 | `pc` is the origin as an address, registers and `ir` are 0, the code is Z and the machine runs; memory is kept |
| CCycle.SetAddressValue | c_implementation/src/main.c:361-369 | one cell is written; the code is untouched |
| CCycle.SetRegisterValue | c_implementation/src/main.c:372-380 | registers 0..7 are written, any other number changes nothing; the code is untouched |
| CScenarios.HaltStopsTheMachine | c_implementation/src/main.c:676-681 | a cycle on HALT sets the code to P and stops the machine |
| CScenarios.HaltEndsTheRun | c_implementation/src/main.c:288-292 | a run of any positive count stops right after a HALT |
| CScenarios.UnknownTrapStops | c_implementation/src/main.c:637-650 | TRAP x99 stops the machine and keeps the code |
| CScenarios.BrnBranchesOnPositive | c_implementation/src/main.c:428-437 | BRn #3 branches exactly when the code is P |
| CScenarios.JsrrR7StaysPut | c_implementation/src/main.c:525-539 | JSRR R7 saves `pc` in R7 and leaves `pc` after the instruction |
| CScenarios.StrUsesRegisterNumber | c_implementation/src/main.c:626-635 | STR R0, R1, #2 writes cell 3 whatever R1 holds |
| CScenarios.StrBelowMemoryIsUndefined | c_implementation/src/main.c:626-635 | STR R0, R0, #-1 indexes before memory |
| CScenarios.AddImmediateOneAddsOne | c_implementation/src/main.c:439-461 | ADD R1, R1, #1 adds one modulo 2^16 |

## Left out

- The console front ends are not modelled: Rust `main.rs` and the command loop in `main.c`. They only parse commands and call the engine.
- File reading is not modelled: `lines_from_file`, `get_datafile`, `fetch_instruction`, `initialize_mem`. The Rust loader starts from the lines already read. The C reset takes the origin word already read.
- Printing is not modelled: the dumps, `print_*`, the condition code's `Display`, and the `printf` logging inside every C handler. The logging line of LDR reads memory a second time; that read is left out too. Trap notices and the IN prompt are not part of the output.
- The Rust `LC3Error` variants `Io`, `Unknown` and the console-only ones are not modelled; nothing in the engine returns them.
- Utils.Bits: requires a field of at most 30 bits with `0 <= right <= left <= 30`. Beyond that the source's `i32` mask computation overflows or its `left >= right` assertion panics, and neither is modelled. Every caller uses fixed fields inside 16 bits.
- Utils.BitsSigned: has the same precondition as `Utils.Bits`, for the same reason.
- CWords.BitSelectUs: requires the same field bound. A wider mask would be an undefined shift in C.
- CWords.BitSelectS: requires the same field bound. Its ensures state the negated branch only for fields within bits 15..0 narrower than 16 bits, which covers every field the handlers read.
- The macros' other integer widths are not modelled: only `i32` for Rust, and `short`/`unsigned short` for C.
- C `char` is taken to be signed, as on the targets the program is built for.
- The `default` branch of the C opcode switch is not modelled: a four-bit code cannot reach it.
- The `default` branch of `get_condition_num` is not modelled: the code only ever holds 'N', 'Z' or 'P'.
- Operations.AddStep and Operations.LdrStep: model `i32` addition with overflow checks on, as in a debug build, where an overflowing sum panics. A release build wraps the sum modulo 2^32 instead; that behaviour is not modelled.
- Program.FromStrRadix16: its own contract states only that results are `i32`. Its agreement with Rust's parser is stated for printed numbers by `Program.ParseHexRoundTrip`, not as a full characterisation of the accepted strings.
- Cycles.CycleStep: on a state outside the valid ones it only promises that the run stops. Such states are not reachable from `CPU::new`.
- CCycle.CycleStep: on a state outside the valid ones it is undefined. Every C value of `CPU` is valid.
- CScenarios.StrUsesRegisterNumber: stated for the STR handler on the fetched state rather than for the whole cycle, to keep the proof small. `CCycle.CycleDispatches` connects the two.
- CScenarios.StrBelowMemoryIsUndefined: stated at the handler level, as above.
