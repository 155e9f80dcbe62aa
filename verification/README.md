# LS-8 CPU emulator in Dafny

This is a model of the execution core of the LS-8 emulator (`ls8/cpu.py`). The LS-8 is an 8-bit computer.
It has 256 bytes of RAM and eight registers, R0 to R7. R7 is the stack pointer and is set to 0xF4 at power-on.
It also has a program counter PC, an instruction register IR and a flags register FL, laid out as `00000LGE`.
Its ALU has fourteen operations. Every opcode byte is laid out as `AABCDDDD`: AA is the operand count, B marks an ALU instruction, C marks an instruction that sets PC itself, and DDDD identifies the instruction.
A closed table of 34 opcodes names every instruction.

Files:

- `bits.dfy` (module `Bits`) defines Python's integer bit operators on non-negative integers: `&`, `|`, `^`, `<<`, `>>` and `& 0xFF`. Each one is proved to act bit by bit.
- `opcodes.dfy` (module `Opcodes`) holds the opcode table as the datatype `Instr` with `Lookup` and its inverse `OpcodeOf`. It also holds the decoding of an opcode into its fields. A lemma shows that reading the fields off the opcode's eight-digit binary string gives the same result. That is how the prototype inspects an opcode.
- `faults.dfy` (module `Faults`) holds the error kinds. `wrappers.dfy` (module `Wrappers`) holds `Option`, `Result` and `Outcome`.
- `alu.dfy` (module `Alu`) holds the ALU as pure functions. `Apply` works on two values. `AluEffect` works on the register file and FL. The module also holds the laws of each operation and the two defects listed under Findings.
- `cpu.dfy` (module `Cpu`) holds the class `CPU`. Its RAM and registers are arrays, updated in place by `Load`, `RamWrite`, `Alu` and `Step`. The pure function `Next` describes one cycle: it fetches, then `Execute` decodes and runs. `Step` is proved to perform exactly `Next`.
- `cycle_laws.dfy` (module `CycleLaws`) holds the properties of one cycle. It also proves what three cycles do on a worked example, ADD R0,R1; MUL R0,R2; HLT, for any starting bytes in R0, R1 and R2.

Where the prototype's intent is clear but its code cannot run as written, the model follows the intent:

- `__init__` assigns `ram`, `reg`, `pc` and `fl` to locals instead of fields. `run`, `ram_read`, `ram_write` and most ALU branches also use bare names (`reg`, `pc`, `ram`, `opcode`, `isAlu`). The model gives the machine state to one `CPU` object.
- CMP writes characters into an immutable string. The model sets the three flag bits with integer operations, `(fl & ~mask) | (bit << pos)`, starting from a cleared FL.
- DIV uses float division `/=`. The model uses integer division.
- DIV or MOD by zero prints and exits. The model returns the error `DivisionByZero`, and the cycle stops with `Fault`.
- SUB appears twice. The model has one SUB.

Where the code's behaviour differs from the design documentation, the model follows the code:

- Both operand bytes, at PC + 1 and PC + 2, are always fetched. An opcode in the last two bytes of RAM therefore faults with `OutOfBounds`.
- `load` writes word by word. A program longer than 256 words fails at address 256 once RAM is full, like Python's `IndexError`. There is no size check up front.
- `ram_write` stores the value as given and only reports a value outside 0..255.
- `load` does not reset PC.

Where the model follows the design rather than the code:

- An opcode missing from the table is the error `UnknownOpcode`, whether or not its ALU bit is set. The code looks an opcode up only when the ALU bit is set: without that bit the cycle does nothing, and with it the lookup raises `KeyError`.

Choices the code leaves open:

- HLT stops the machine with PC left on the HLT instruction.
- A table entry that has neither the ALU bit nor HLT has no handler in the source. The cycle only applies the PC rule to it: PC advances unless the sets-PC bit is set.

## Model

| member | source | states |
|---|---|---|
| `Cpu.CPU.constructor` | ls8/cpu.py:8-18 | power-on state: 256 zero bytes of RAM, R0-R6 zero, R7 = 0xF4, PC = IR = FL = 0 |
| `Cpu.CPU.Load` | ls8/cpu.py:36-52 | word i of the program lands at address i for i < 256, higher addresses keep their contents, and a program longer than 256 words fails at address 256 |
| `Cpu.ReadAt` | ls8/cpu.py:243-244 | reading an address gives the word stored there exactly when the address lies in RAM, and `OutOfBounds` naming the address otherwise |
| `Cpu.CPU.RamRead` | ls8/cpu.py:243-244 | reads the RAM array exactly as `ReadAt` reads its contents |
| `Cpu.CPU.RamWrite` | ls8/cpu.py:246-249 | only that address changes, it receives the value as given, and the result reports exactly when the value is not a byte (`value & 0xFF != value`) |
| `Cpu.CPU.Alu` | ls8/cpu.py:55-148 | the registers and FL after the call are those given by `AluEffect`, errors included (DIV and MOD test reg_b and its zero divisor before reg_a); on an error nothing changes; RAM and PC are outside its frame |
| `Cpu.CPU.MaskRegister` | ls8/cpu.py:146-148 | `reg[i] &= 0xFF` wraps register i to a byte and leaves the other registers alone |
| `Cpu.CompareFlags` | ls8/cpu.py:68-94 | the flags byte that CMP builds bit by bit is the comparison's flags byte |
| `Cpu.CmpFlagsBuiltBitwise` | ls8/cpu.py:68-94 | clearing FL, then setting E, L and G bit by bit, gives the flags byte of the comparison |
| `Cpu.CPU.Step` | ls8/cpu.py:170-239 | one cycle does exactly what `Next` says to the RAM, registers, PC, IR and FL, and keeps the machine invariant |
| `Cpu.Next` | ls8/cpu.py:174-179 | a cycle keeps the registers bytes and FL well formed, and never writes RAM |
| `Cpu.AdvancePc` | ls8/cpu.py:237 | PC stays put exactly when the instruction sets PC itself; otherwise it moves to the next instruction, operand count + 1 bytes on |
| `Cpu.Execute` | ls8/cpu.py:186-239 | executing the instruction in IR keeps the registers bytes and FL well formed, and never writes RAM |
| `Alu.Apply` | ls8/cpu.py:55-148 | fails exactly for a non-ALU operation (`Unsupported ALU operation`) or DIV/MOD by zero; CMP yields the comparison's flags byte `CmpFlags(a, b)`; every other accepted operation yields the byte `Compute(op, a, b)`, e.g. ADD gives (a + b) & 0xFF |
| `Alu.AluEffect` | ls8/cpu.py:55-148 | fails exactly for a non-ALU operation, a bad register number or a zero divisor; otherwise only `reg[reg_a]` may change (its new value is the operation's byte), CMP changes only FL, and all registers stay bytes |
| `Alu.AluEffectErrors` | ls8/cpu.py:99-117 | which error the ALU reports: `Unsupported ALU operation` outside the ALU; for DIV and MOD a bad reg_b, then a zero divisor, then a bad reg_a; for the others a bad reg_a, then a bad reg_b |
| `Alu.Compute` | ls8/cpu.py:58-147 | the byte left in reg_a is the operation's unbounded Python result wrapped modulo 256 (congruent to it and in 0..255) |
| `Alu.RawStaysInByte` | ls8/cpu.py:58-141 | AND, DIV, MOD, NOT, OR, SHR and XOR on two bytes already give a byte, so the final `& 0xFF` leaves their result unchanged |
| `Alu.CmpFlags` | ls8/cpu.py:64-94 | the flags byte of a comparison is well formed and non-zero, and is E (1) exactly when a == b, G (2) exactly when a > b, L (4) exactly when a < b |
| `Alu.WithFlagBit` | ls8/cpu.py:68-91 | setting or clearing one flag bit changes that bit and no other |
| `Alu.CmpFlagsMeaning` | ls8/cpu.py:25-29 | after CMP the upper five bits of FL are zero, L is set exactly when a < b, G exactly when a > b, E exactly when a == b |
| `Alu.AddSubInverse` | ls8/cpu.py:58-59 | ADD and SUB (line 110) undo each other modulo 256 |
| `Alu.IncDecInverse` | ls8/cpu.py:96-108 | INC and DEC undo each other; DEC of 0 is 255 and INC of 255 is 0 |
| `Alu.NotIsComplement` | ls8/cpu.py:124-126 | NOT (XOR with 0xFF) is 255 - a, flips each of the eight bits, and is its own inverse |
| `Alu.AndBits` | ls8/cpu.py:61-62 | bit i of a AND b is set exactly when bit i is set in both |
| `Alu.OrBits` | ls8/cpu.py:128-129 | bit i of a OR b is set exactly when bit i is set in either |
| `Alu.XorBits` | ls8/cpu.py:140-141 | bit i of a XOR b is set exactly when bit i differs between them |
| `Alu.XorSelfInverse` | ls8/cpu.py:140-141 | XOR with b twice gives back a |
| `Alu.DivModLaw` | ls8/cpu.py:99-119 | for a non-zero divisor, DIV and MOD are the integer quotient and remainder: a == b * q + r with 0 <= r < b |
| `Alu.DivisionByZeroFails` | ls8/cpu.py:99-117 | DIV and MOD by zero fail with `DivisionByZero` for every dividend |
| `CycleLaws.DivisionByZeroCycle` | ls8/cpu.py:99-117 | a DIV or MOD cycle whose reg_b holds 0 stops with `DivisionByZero`, whatever reg_a names, and changes nothing but IR |
| `Alu.MulLaws` | ls8/cpu.py:121-122 | MUL commutes and distributes over ADD, both modulo 256 |
| `Alu.MulByTwoIsShiftLeft` | ls8/cpu.py:121-132 | MUL by 2 equals SHL by 1 (both wrap modulo 256) |
| `Alu.ShiftLeftLaw` | ls8/cpu.py:131-132 | bit i of a SHL b is bit i - b of a, zero below b, and bits past 7 are dropped |
| `Alu.ShiftRightLaw` | ls8/cpu.py:134-135 | bit i of a SHR b is bit i + b of a |
| `Alu.ShrAsWritten` | ls8/cpu.py:134-135 | SHR as written, `reg[reg_b] >> reg[reg_b]` masked to 8 bits, yields a byte |
| `Alu.ShrAsWrittenLosesOperand` | ls8/cpu.py:134-135 | as written, 8 SHR 1 gives 0 where 4 is meant, and any value shifted by 1 gives 0 |
| `Alu.AluEffectAsWritten` | ls8/cpu.py:146-148 | masking `reg[reg_b]` for every operation makes any ALU operation fail when reg_b is not a register, INC/DEC/NOT included |
| `Alu.IncBeforeLdiFaultsAsWritten` | ls8/cpu.py:146-148 | as written, INC R0 followed by LDI (0x82) fails with an invalid register 0x82; the corrected ALU increments R0 |
| `Alu.OneOperandIgnoresRegB` | ls8/cpu.py:107-126 | INC, DEC and NOT do not depend on the reg_b operand |
| `Bits.Mask` | ls8/cpu.py:146-147 | `x & 0xFF` is a byte, leaves a byte unchanged, and differs from x by a multiple of 256 (so negative results wrap) |
| `Bits.AndBit` | ls8/cpu.py:61-62 | Python's `&` acts bit by bit |
| `Bits.XorOnes` | ls8/cpu.py:125-126 | XOR with all ones of width w is the w-bit complement |
| `Bits.ShiftRightBit` | ls8/cpu.py:134-135 | Python's `n >> k` moves bit i + k to bit i |
| `Bits.ShiftLeftBit` | ls8/cpu.py:131-132 | Python's `n << k` moves bit i to bit i + k |
| `Opcodes.Lookup` | ls8/cpu.py:197-232 | every byte the table names is in 0..255 |
| `Opcodes.OpcodeOf` | ls8/cpu.py:197-232 | every operation has an opcode byte, and the table maps that byte back to the operation |
| `Opcodes.TableRoundTrip` | ls8/cpu.py:197-232 | the table maps each byte to at most one operation: a byte it names is that operation's opcode, so the table is one-to-one |
| `Opcodes.FromToBinary` | ls8/cpu.py:186 | for n below 2^w, reading back its w-digit binary string (`int(bin(n)[2:].zfill(w), 2)`) gives n, so an opcode byte with w = 8 reads back as itself; for larger n the model keeps the low w digits and gives n mod 2^w |
| `Opcodes.ToBinaryBit` | ls8/cpu.py:186-190 | character w - 1 - i of the binary string is bit i |
| `Opcodes.Decode` | ls8/cpu.py:186-192 | the AA, B, C and DDDD fields are an operand count below 4 and an identifier below 16, and together they rebuild the byte |
| `Opcodes.DecodeReadsBinary` | ls8/cpu.py:186-192 | reading the fields off the eight-digit binary string (`bin_ir[:2]`, `bin_ir[2]`, `bin_ir[3]`, `bin_ir[4:]`) gives the same fields as `Decode` |
| `Opcodes.DecodeFields` | ls8/cpu.py:186-192 | the string fields are the arithmetic fields: AA = b / 64, B = bit 5, C = bit 4, DDDD = b mod 16 |
| `Opcodes.TableAgreesWithEncoding` | ls8/cpu.py:197-232 | a table entry has the ALU bit exactly when it is one of the 14 ALU operations, the sets-PC bit exactly when it is a call, return, jump or interrupt instruction, and at most two operands |
| `CycleLaws.HltHalts` | ls8/cpu.py:239 | HLT stops the machine with PC on the HLT and nothing changed but IR |
| `CycleLaws.UnknownOpcodeFaults` | ls8/cpu.py:197-235 | a byte outside the table stops the machine with `UnknownOpcode` |
| `CycleLaws.StopLeavesState` | ls8/cpu.py:234-239 | a cycle that halts or fails changes nothing but IR |
| `CycleLaws.NeverUnsupported` | ls8/cpu.py:234-235 | decoding never sends a non-ALU operation to the ALU, so a cycle never fails with `Unsupported ALU operation` |
| `CycleLaws.PcRule` | ls8/cpu.py:237 | after a cycle that continues, PC advances by operand count + 1, except after a call, return, jump or interrupt instruction, where it is left alone |
| `CycleLaws.AluCycleFrame` | ls8/cpu.py:234-235 | an ALU instruction changes only its destination register, or only FL for CMP |
| `CycleLaws.NonAluCycleFrame` | ls8/cpu.py:234-235 | a table entry without the ALU bit changes neither registers nor FL |
| `CycleLaws.FetchOutOfRange` | ls8/cpu.py:174-179 | when PC + 2 is past the end of RAM, the cycle faults with `OutOfBounds` naming the first of PC, PC + 1, PC + 2 outside RAM; the state is unchanged if PC itself is outside, else only IR has received the opcode |
| `CycleLaws.HltAtEndFaults` | ls8/cpu.py:177-179 | an HLT in the last byte of RAM faults with `OutOfBounds(256)` instead of halting |
| `CycleLaws.FetchThenExecute` | ls8/cpu.py:174-179 | with PC, PC + 1 and PC + 2 in RAM, a cycle loads the opcode into IR and executes it on the two operand bytes |
| `CycleLaws.ExecuteAlu` | ls8/cpu.py:234-237 | an ALU instruction the ALU accepts writes the ALU's registers and flags and advances PC by operand count + 1 |
| `CycleLaws.AddMulCycle1` | ls8/cpu.py:58-59 | with bytes x, y, z in R0, R1, R2, ADD R0,R1 leaves x + y (mod 256) in R0 and PC at 3 |
| `CycleLaws.AddMulCycle2` | ls8/cpu.py:121-122 | then MUL R0,R2 leaves (x + y) * z (mod 256) in R0 and PC at 6 |
| `CycleLaws.AddMulCycle3` | ls8/cpu.py:239 | then HLT stops the machine with PC = 6; starting from 5, 3 and 2, R0 ends at 16 |

## Left out

- `trace`, PRN and PRA output: console printing only.
- The `print` and `exit()` calls on division by zero are replaced by the error result `DivisionByZero`, because a process exit cannot be modelled.
- Float division: DIV is integer division, and there are no floats in the model.
- INT and IRET, and the interrupt-mask and interrupt-status roles of R5 and R6, are decoded and in the table only. The source gives them no behaviour.
- LD, ST, LDI, PUSH, POP, CALL, RET, JMP, the conditional jumps, PRN, PRA and NOP are table entries only. The source has no handler for them. Properties of their behaviour (a PUSH/POP round trip, CALL/RET returning) are therefore not modelled.
- MAR and MDR: they are initialised to 0 and never used.
- The `__main__` stub and the `sys` import.
- Python's negative list indices (`ram[-1]`) are not modelled. Any address or register number outside its range is an error.
- `Cpu.CPU.Load` takes the program as a parameter. The source hard-codes the six-byte print8 program inside `load`.
- `Cpu.CPU.RamWrite`: the source prints a warning before the store. A call that both warns and fails reports only the `OutOfBounds` error.
- `Opcodes.ToBinary` keeps only the low w digits of n, where Python's `zfill` keeps every digit of a longer string. The two differ only for n of 2^w or more, and never for an opcode byte written with eight digits.
- The loop in `run` is left out. Only the single cycle is modelled, because the source's `run` performs one fetch and contains no loop.

## Findings

| source | as written | input that shows it | evidently intended | confidence | as-written member | corrected member |
|---|---|---|---|---|---|---|
| ls8/cpu.py:135 | `reg[reg_a] = reg[reg_b] >> reg[reg_b]` | R0 = 8, R1 = 1, SHR R0,R1 gives 0 | `reg[reg_a] >> reg[reg_b]`, giving 4 | high; not executed | `Alu.ShrAsWrittenLosesOperand` | `Alu.ShiftRightLaw` |
| ls8/cpu.py:148 | `reg[reg_b] &= 0xFF` after every operation, with reg_b always fetched from PC + 2 | INC R0 (0x65 0x00) followed by LDI (0x82): reg_b = 0x82 is not a register, so the INC fails | INC, DEC and NOT ignore their second operand byte | medium; not executed | `Alu.IncBeforeLdiFaultsAsWritten` | `Alu.OneOperandIgnoresRegB` |
