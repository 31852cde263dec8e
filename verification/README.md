# gobf toolchain core, modelled in Dafny

gobf reads a Brainfuck-style program and runs it on a tape of 8-bit cells.
This project models the toolchain's core:

- the front-end parser (`parser/parser.go`): characters to opcodes, with
  `[`/`]` resolved into absolute indices of their partners;
- the instruction model and the optimizer (`instructions/`): run-length
  compression of moves and cell arithmetic, then the remapping of jump
  targets into the compressed stream;
- the AArch64 JIT compiler (`jit/`): a fixed prologue, one block of machine
  code per instruction, a fixed epilogue, and a second pass that links
  every jump block to its partner and patches a CBZ/CBNZ into it;
- the reference interpreter (`cpu.go`): a wrapping address counter,
  modulo-256 cells and jump-to-partner control flow.

Files:

- `wrappers.dfy`: `Option` and `Result`.
- `integers.dfy`: `byte`/`uint32` and a few facts about division.
- `instructions.dfy`: opcodes, instructions and the bracket-pairing invariant.
- `parser.dfy`: the parser.
- `optimizer.dfy`: the optimizer.
- `arm64.dfy`: the two instruction encoders, with decoders for the
  "Add/subtract (immediate)" and "Compare and branch (immediate)" groups of
  the A64 encoding (chapter C4 of the Arm Architecture Reference Manual).
- `compiler.dfy`: `Jit`, `CodeBlock`, `Compile` and `postProcessJumps`,
  plus the branch-range finding at the level of whole programs.
- `cpu.dfy`: the interpreter.
- `pipeline.dfy`: parse, optimize and compile, as written and corrected,
  plus the parser finding.
- `scenarios.dfy`: the repository's unit tests restated as lemmas.

Modelling choices:

- Each opcode is a constructor. `Instructions.OpcodeOf` fixes the Go
  numbering, `Unknown` = 0 to `Clear` = 9.
- The root package's `Instruction` (`linkedJump`/`jumpPoint`) and the
  parser's `.Link` are the one integer operand `value` of a single
  `Instruction` datatype.
- Go panics are error values:
  - an index out of range;
  - a jump operand that is not a block index;
  - the interpreter's explicit panic on an I/O error.
- `io.Reader` is a sequence of read outcomes. An exhausted sequence reads
  as `io.EOF`.
- `io.Writer` is the bytes written so far, plus the outcomes of its
  successive `Write` calls. An exhausted sequence accepts every write.
- `CodeBlock.link` is an index into the block list, not a pointer.
- Go's `/` truncates toward zero. `Arm64.TruncDiv` writes that out.
- The branch encoder's range check is a parameter of the jump pass and of
  `Compile` (`Arm64.Relocation`). `AsWritten` is the check of
  jit/compiler_darwin_arm64.go:213-221, and the program's own build
  (`Pipeline.Build`) uses it. `Corrected` checks the word offset itself;
  only `Pipeline.BuildCorrected` uses it.
- The conversion of a negative `int` to `uint32` wraps modulo 2^32.
  `Arm64.Uint32` writes that out.

Four facts about the code bound what the model can promise:

- `Clear` is declared but never produced: the optimizer folds runs only
  (`Optimizer.NoOpcodeIntroduced`).
- Non-jump instructions get operand 0 from the parser (see Findings).
- `recalculateJumps` tests two conditions, and the model keeps both. For
  any jump whose original target is not folded into a run,
  `Optimizer.ShiftIsRemoved` shows they agree with "subtract when
  `start + length < target`".
- `Execute` ignores every operand but a jump's
  (`Interpreter.OperandIgnored`), so it does not describe the run lengths
  of optimized streams.

## Model

| member | source | states |
|---|---|---|
| Instructions.OpcodeOf | instructions/instruction.go:5-20 | The declared opcodes are numbered 0 (`Unknown`) to 9 (`Clear`), one per number; no opcode has another number |
| Instructions.ToString | instructions/instruction.go:27-52 | The name is "Unknown" exactly for `Unknown` and for numbers outside the declared range; two different declared opcodes never share a name |
| Instructions.IsJump | instructions/instruction.go:54-56 | True exactly for `JumpIfZero` and `JumpUnlessZero` (ordinals 7 and 8) |
| Instructions.CanBeOptimized | instructions/instruction.go:58-63 | True exactly for `MoveRight`, `MoveLeft`, `Increment` and `Decrement` (ordinals 1 to 4) |
| Instructions.JumpsAreNotOptimizable | instructions/instruction.go:54-63 | No instruction is both a jump and foldable |
| Parser.OpcodeOfChar | parser/parser.go:71-92 | The result is `Unknown` exactly for characters outside `><+-.,[]`, `Clear` is never produced, and every recognised character is the symbol of its opcode |
| Parser.SymbolRoundTrip | parser/parser.go:71-92 | Mapping an opcode's symbol back gives the opcode |
| Parser.PrefixStep | parser/parser.go:30-40 | Extending the input by one character adds that character's bracket delta to the depth and its opcode, if any, to the recognised opcodes |
| Parser.PlainStep | parser/parser.go:30-62 | A non-bracket character appends one instruction with the default operand (nothing for an unknown character) and keeps the scan invariant |
| Parser.PushStep | parser/parser.go:37-40 | An opening bracket pushes its output index and keeps the scan invariant |
| Parser.PopStep | parser/parser.go:42-53 | A closing bracket gets the index of the innermost open bracket, that bracket is patched to the closing index, and the scan invariant is kept |
| Parser.Scan | parser/parser.go:30-66 | The scan fails with "no matching '['" exactly when some prefix closes more brackets than it opens, and with "no matching ']'" exactly when brackets stay open at the end; on success it gives one instruction per recognised character in order, the default operand on non-jumps, and paired, nested jumps |
| Parser.ParseWith | parser/parser.go:14-69 | The same outcome for the whole input: success iff no prefix has negative depth and the final depth is 0, each error exactly in its case, and on success the recognised opcodes in order with paired, nested jumps |
| Parser.Parse | parser/parser.go:14-69 | The parser as written: all of the above, with operand 0 on every non-jump |
| Parser.ParseCounted | parser/parser.go:14-69 | The corrected parser: all of the above, with operand 1 on every non-jump |
| Parser.BracketFreeParse | parser/parser.go:19-62 | Input without brackets always parses, into exactly one instruction per recognised character with the default operand |
| Optimizer.RunLength | instructions/optimizer.go:37-43 | The run from `i` is non-empty, inside the stream, all of one opcode, and maximal |
| Optimizer.RecalculateJumps | instructions/optimizer.go:67-96 | Only jump operands change: length, order, opcodes and non-jump instructions are kept, and with no records nothing changes |
| Optimizer.CompressRecords | instructions/optimizer.go:15-60 | Every record describes a real maximal run (start, length = run length - 1, opcode, absorbed members), records are in increasing start order, and output length plus recorded lengths equals the input length |
| Optimizer.CompressPlacement | instructions/optimizer.go:15-60 | Every input instruction that starts a run or stands alone lands at its start index less the instructions removed before it, folded if it starts a run, and the order of these instructions is kept |
| Optimizer.CompressCovers | instructions/optimizer.go:15-60 | Every output instruction comes from such an input instruction |
| Optimizer.CompressMaximal | instructions/optimizer.go:15-60 | The compressed stream has no two adjacent equal foldable opcodes |
| Optimizer.CompressNoRuns | instructions/optimizer.go:20-33 | A stream without runs is copied unchanged, with no records |
| Optimizer.ShiftIsRemoved | instructions/optimizer.go:76-88 | For a target not folded into a run, the total the code subtracts under its two conditions equals the lengths of the runs that end before the target |
| Optimizer.JumpTargetsFollow | instructions/optimizer.go:60-95 | A jump whose target is not folded into a run is moved to its new position and its operand becomes the new position of its original target |
| Optimizer.OptimizeInstructions | instructions/optimizer.go:15-65 | The output is shorter by the recorded lengths and has no runs left |
| Optimizer.OptimizePlacement | instructions/optimizer.go:15-65 | Every non-jump instruction that is not folded away appears at its new position, folded to its run length if it starts a run and unchanged otherwise, in the input order |
| Optimizer.OptimizeCovers | instructions/optimizer.go:15-65 | Every output instruction comes from a surviving input instruction with the same opcode |
| Optimizer.PairedAtOptimized | instructions/optimizer.go:15-96 | On a paired input, every output position satisfies the pairing invariant |
| Optimizer.PositionReflectsOrder | instructions/optimizer.go:15-60 | The new positions of surviving instructions are in input order |
| Optimizer.NestedPairOptimized | instructions/optimizer.go:15-96 | Non-crossing brackets stay non-crossing after remapping |
| Optimizer.OptimizePreservesPairing | instructions/optimizer.go:15-96 | Bracket pairing survives optimization, and so does nesting |
| Optimizer.OptimizeNoRunsIdentity | instructions/optimizer.go:24-33 | A stream with no runs is returned unchanged, operands included |
| Optimizer.OptimizeIdempotent | instructions/optimizer.go:15-65 | Optimizing an optimized stream changes nothing |
| Optimizer.NoOpcodeIntroduced | instructions/optimizer.go:15-65 | No opcode appears in the output that is absent from the input; in particular `Clear` is never produced |
| Arm64.Uint32 | jit/compiler_darwin_arm64.go:198-224 | Go's conversion to `uint32` keeps values in range and wraps negative values by 2^32 |
| Arm64.TruncDiv | jit/compiler_darwin_arm64.go:211 | Go's integer division by 4: the remainder has the sign of the dividend and is smaller than the divisor |
| Arm64.LittleEndian | jit/compiler_darwin_arm64.go:204 | Four bytes, and reading them back little-endian gives the word |
| Arm64.LittleEndianOfBytes | jit/compiler_darwin_arm64.go:204 | Writing back the word read from four bytes gives the same bytes |
| Arm64.MathWordDecodes | jit/compiler_darwin_arm64.go:197-202 | The word decodes as a 64-bit ADD or SUB (immediate), no flags, unshifted, with the immediate and the register's low five bits as both source and destination |
| Arm64.EncodeMath | jit/compiler_darwin_arm64.go:192-207 | Fails with "immediate out of range" exactly when the immediate is negative or at least 4096; otherwise the word decodes as above |
| Arm64.AppendMath | jit/compiler_darwin_arm64.go:192-207 | On failure nothing is appended; on success exactly four bytes are appended, the earlier code is kept, and the new bytes decode as above |
| Arm64.BranchWordDecodes | jit/compiler_darwin_arm64.go:223-229 | For an in-range count, the word decodes as a 32-bit CBZ or CBNZ on the register's low five bits with that count |
| Arm64.SignExtendAsWritten | jit/compiler_darwin_arm64.go:213-216 | The sign extension keeps in-range counts and changes any count only by a multiple of 2^19 |
| Arm64.SignExtendedInRange | jit/compiler_darwin_arm64.go:213-221 | The range check after the sign extension fails exactly when the count is below -2^18 with bit 18 clear, or at least 2^18 with bit 18 clear |
| Arm64.EncodeBranchAsWritten | jit/compiler_darwin_arm64.go:209-230 | The encoder as written: it fails exactly in the case above; otherwise the word decodes as CBZ/CBNZ on the register with the sign-extended count, which is in range and equal to the requested count modulo 2^19 |
| Arm64.EncodeBranch | jit/compiler_darwin_arm64.go:209-230 | The corrected encoder: it fails exactly when the count is outside [-2^18, 2^18), and otherwise the word decodes to that exact count |
| Arm64.EncodersAgreeInRange | jit/compiler_darwin_arm64.go:209-230 | The two encoders agree on every in-range offset |
| Arm64.EncodeRelocated | jit/compiler_darwin_arm64.go:209-230 | Under either range check, the encoder fails exactly when the relocated count (sign-extended as written, unchanged when corrected) is outside [-2^18, 2^18); otherwise the word decodes as CBZ/CBNZ on the register with that relocated count |
| Arm64.RelocationKeepsCount | jit/compiler_darwin_arm64.go:213-221 | An accepted count is written unchanged exactly when the check is the corrected one or the count fits 19 bits |
| Arm64.SignExtensionBeforeRangeCheck | jit/compiler_darwin_arm64.go:213-221 | A forward offset of 2^20 bytes is accepted by the encoder as written and becomes a backward branch of 2^18 instructions; the corrected encoder rejects it |
| Compiler.NewJit | jit/jit.go:17-23 | A definition: a new JIT has the given memory size, no code and no blocks; what compiling into it yields is pinned by `Compiler.CompileNewLayout` and `Compiler.CompileNewErrors` |
| Compiler.GeneratedCode | jit/jit.go:25-27 | A definition: the JIT's code bytes; `Pipeline.SingleMoveCompiles`, `Pipeline.ZeroOperandMove` and `Pipeline.CountedMove` state their results through it |
| Compiler.Emission | jit/compiler_darwin_arm64.go:43-131 | One instruction's bytes: an error exactly for a foldable instruction whose operand is not a 12-bit immediate; otherwise the per-opcode size, with an add/sub on x9 for moves, a load, add/sub on x11 and store for cell arithmetic, and a load plus placeholder for jumps |
| Compiler.Layout | jit/compiler_darwin_arm64.go:37-41 | One offset per block plus the end, starting at the base |
| Compiler.LayoutFacts | jit/compiler_darwin_arm64.go:37-135 | Each block starts where the previous one ends, offsets never decrease, and all are multiples of 4 from the base |
| Compiler.EmitAll | jit/compiler_darwin_arm64.go:37-135 | The first pass fails exactly when some instruction has an unencodable immediate; otherwise each block's bytes sit at its offset and there is one code block per instruction, in order |
| Compiler.LinkBlocks | jit/compiler_darwin_arm64.go:153-159 | Linking fails exactly when some jump's operand is not a block index; otherwise each jump block links to the block its operand names and nothing else changes |
| Compiler.PutUint32 | jit/compiler_darwin_arm64.go:186 | Writing a word fails exactly when the four bytes fall outside the code; otherwise only those four bytes change, to the word's little-endian bytes |
| Compiler.PatchAll | jit/compiler_darwin_arm64.go:161-187 | Patching succeeds exactly when every jump block is linked, its placeholder lies inside the code and the branch encoder accepts its distance (as written: unless the count has bit 18 clear and lies outside the 19-bit range); only placeholder bytes change; when jump blocks do not overlap, each placeholder holds the encoder's word; a failure with every jump block placed is "offset is out of range" |
| Compiler.PostProcessJumps | jit/compiler_darwin_arm64.go:152-190 | A jump operand that is not a block index panics before any patching; otherwise the pass succeeds exactly when every jump is patchable under the branch encoder (as written: the sign-extended count passes the range check), and a failure with every jump placed is "offset is out of range"; on success it keeps the memory size and code length, links every jump block to its operand, changes only placeholder bytes, and, when placeholders do not overlap, each placeholder holds the encoder's CBZ/CBNZ word |
| Compiler.Compile | jit/compiler_darwin_arm64.go:18-150 | An unencodable immediate is an error; on success the memory size is kept, the code grows by the prologue, the blocks and the epilogue, and there is one block per instruction |
| Compiler.CompileNewErrors | jit/compiler_darwin_arm64.go:18-230 | For a new JIT, the outcome is the first failing check in order: immediate out of range, then a jump operand outside the program, then a branch the encoder refuses (as written: a count of instructions with bit 18 clear outside [-2^18, 2^18)); otherwise the compile succeeds |
| Compiler.CompileNewLayout | jit/compiler_darwin_arm64.go:18-230 | A successful compile into a new JIT gives the prologue, each instruction's block at its offset, the epilogue, one code block per instruction linked to its partner, and in each jump block a load and a CBZ/CBNZ whose count is the encoder's relocated count of instructions to just past the partner's branch (sign-extended, as written) |
| Compiler.FreshStages | jit/compiler_darwin_arm64.go:18-190 | Compiling into a new JIT is the first pass followed by patching of the linked blocks, with the layout and patchability facts both need |
| Compiler.JumpLands | jit/compiler_darwin_arm64.go:177-230 | A compiled jump's branch lands just past its partner's branch exactly when the range check is the corrected one or the count fits 19 bits |
| Compiler.PatchAllAgree | jit/compiler_darwin_arm64.go:161-230 | When every linked jump's word offset fits 19 bits, patching under either range check gives the same result |
| Compiler.CorrectedFitsLess | jit/compiler_darwin_arm64.go:213-221 | Every program whose branches the corrected check accepts has its branches accepted by the check as written |
| Compiler.CompileAgreesInReach | jit/compiler_darwin_arm64.go:18-230 | Whatever the corrected compiler accepts, the compiler as written compiles to the same JIT; whatever the compiler as written refuses, the corrected one refuses with the same error |
| Compiler.FarJumpCounts | jit/compiler_darwin_arm64.go:37-178 | In the program of a jump over m moves to a closing jump, nothing fails to encode or link, the first jump's count is m + 3 and the last's is -(m + 1) |
| Compiler.FarJumpBranches | jit/compiler_darwin_arm64.go:213-221 | With m = 2^18 - 3 the first count is 2^18, sign-extended to -2^18; the check as written accepts every branch, the corrected one refuses the first |
| Compiler.FarJumpGoesBackward | jit/compiler_darwin_arm64.go:18-230 | The compiler as written compiles that program, whose first jump goes forward to the last instruction, into a CBZ at byte 20 with count -2^18, a branch backward; the corrected compiler refuses it with "offset is out of range" |
| Interpreter.MovedRight | cpu.go:24-29 | One cell right from the last wraps to the first, and nothing but the address counter and the program counter changes |
| Interpreter.MovedLeft | cpu.go:30-35 | One cell left from the first wraps to the last, and nothing but the address counter and the program counter changes |
| Interpreter.Added | cpu.go:36-39 | Only the current cell changes, by the delta modulo 256 |
| Interpreter.Written | cpu.go:40-45 | A failing `Write` call is an I/O panic; otherwise exactly the current cell's byte is appended to the output and one writer outcome is used up |
| Interpreter.ReadInto | cpu.go:46-56 | A failing reader is an I/O panic; a byte read is stored in the current cell; nothing read leaves memory unchanged; the reader advances by one call |
| Interpreter.Jumped | cpu.go:57-64 | A taken jump sets the program counter to its operand; an untaken one advances it by 1 |
| Interpreter.Execute | cpu.go:22-68 | Panics exactly on I/O failure or an address counter outside memory on an instruction that touches the cell; otherwise the address counter stays in memory, non-jumps advance the program counter by 1, and each instruction changes only its own part of the state |
| Interpreter.HasInstructionsLeft | cpu.go:70-72 | A definition: the program counter is below the program's length; `Interpreter.Step`'s ensures (a step fails with an index panic when it is false) and `Interpreter.StraightLineRuns` (true before each step of a straight-line program, false after the last) pin it |
| Interpreter.Step | cpu.go:18-20 | A step without instructions left is an index panic, and a step never changes the program |
| Interpreter.OperandIgnored | cpu.go:22-68 | The result of a non-jump instruction does not depend on its operand |
| Interpreter.MovesAreInverse | cpu.go:24-35 | A move right and a move left undo each other, in either order |
| Interpreter.ArithmeticIsInverse | cpu.go:36-39 | An increment and a decrement undo each other, in either order |
| Interpreter.MovesRightWrap | cpu.go:24-29 | n moves right put the address counter at (start + n) modulo the memory size |
| Interpreter.MovesLeftWrap | cpu.go:30-35 | n moves left put the address counter at (start - n) modulo the memory size |
| Interpreter.IncrementsWrap | cpu.go:36-37 | n increments leave the current cell at (start + n) modulo 256 and every other cell unchanged |
| Interpreter.DecrementsWrap | cpu.go:38-39 | n decrements leave the current cell at (start - n) modulo 256 and every other cell unchanged |
| Interpreter.StraightLineRuns | cpu.go:18-72 | A program of moves and cell arithmetic has instructions left before each of its steps, never panics, and has none left after its last |
| Pipeline.BuildWith | main.go:30-44 | A build with a given default operand and range check fails to parse exactly when the parser with that operand fails, with the same error; a successful build keeps the memory size |
| Pipeline.Build | main.go:30-44 | The program's build, with the parser and the encoder as written, fails to parse exactly when the parser as written fails, with the same error; a successful build keeps the memory size |
| Pipeline.BuildCorrected | main.go:30-44 | The build with the counted parser and the corrected range check fails to parse exactly when the counted parser fails, with the same error; a successful build keeps the memory size |
| Pipeline.PairedTargetsInRange | parser/parser.go:48-53 | Paired jumps point inside the program |
| Pipeline.BuildOutcome | jit/compiler_darwin_arm64.go:18-230 | A parsed program never fails to link; a successful build is the full compiled layout of the prepared program; without optimization, and with a default operand that fits an immediate, the build fails exactly when the encoder refuses some branch, and then with "offset is out of range" |
| Pipeline.SingleMoveCompiles | jit/compiler_darwin_arm64.go:27-46 | Under either range check, a one-`MoveRight` program compiles to the prologue, that move's add, and the epilogue |
| Pipeline.MoveEmissions | jit/compiler_darwin_arm64.go:197-204 | `MoveRight` with operand 0 emits 29 01 00 91, and with operand 1 emits 29 05 00 91 |
| Pipeline.ParsedSingleMove | parser/parser.go:42-60 | ">" parses to a single `MoveRight` carrying the parser's default operand |
| Pipeline.ZeroOperandMove | parser/parser.go:42 | As written: ">" parses to `MoveRight` 0, optimization keeps it, and the program's build compiles it to `add x9, x9, #0`, which leaves the address unchanged, while the interpreter moves the address counter |
| Pipeline.CountedMove | parser/parser.go:42 | Corrected: ">" parses to `MoveRight` 1 and the corrected build compiles it to `add x9, x9, #1` (29 05 00 91), the bytes of the compiler test's first block |
| Pipeline.CountedOperandsAreRunLengths | instructions/optimizer.go:37-48 | With the corrected parser, every foldable instruction after optimization carries the number of source characters it stands for, and so is at least 1 |
| Scenarios.MoveRightScenario | cpu_test.go:17-38 | Three moves right over three cells visit 1, 2, 0 |
| Scenarios.MoveLeftScenario | cpu_test.go:40-61 | Three moves left from the last of three cells visit 1, 0, 2 |
| Scenarios.ArithmeticScenario | cpu_test.go:63-84 | Three increments of a zero cell give 3 |
| Scenarios.DecrementScenario | cpu_test.go:86-107 | Three decrements of 3 give 0 |
| Scenarios.WriteScenario | cpu_test.go:109-147 | Writing, moving and writing emits the two cells; a third write that the writer fails panics |
| Scenarios.ReadScenario | cpu_test.go:149-185 | Two reads fill two cells; a read at end of input panics |
| Scenarios.JumpIfZeroScenario | cpu_test.go:187-211 | On a zero cell a `JumpUnlessZero` falls through to 1; after two increments a `JumpIfZero` to 0 falls through to 4 |
| Scenarios.JumpUnlessZeroScenario | cpu_test.go:213-254 | Untaken jumps advance by one (to 1 and 3); a `JumpUnlessZero` on a non-zero cell lands on 5, and a `JumpIfZero` on a zero cell lands on 3 |
| Scenarios.ExecuteSimpleScenario | cpu_test.go:256-311 | `++>+<-` stepped through gives the memory and counters the test expects |
| Scenarios.HasInstructionsLeftScenario | cpu_test.go:313-340 | Instructions are left before each of two steps and none after |
| Scenarios.MemoryOverflowScenario | cpu_test.go:342-360 | 255 increments of zero give 255, and one more gives 0 |
| Scenarios.MemoryUnderflowScenario | cpu_test.go:362-372 | Decrementing zero gives 255 |
| Scenarios.ParseSingleScenario | parser/parser_test.go:10-36 | Each command character parses to one instruction of its opcode |
| Scenarios.ParseUnknownScenario | parser/parser_test.go:38-45 | "x" parses to nothing, without error |
| Scenarios.UnmatchedScenario | parser/parser_test.go:129-152 | "[" fails with the missing-"]" error and "]" with the missing-"[" error |
| Scenarios.ParseMultipleScenario | parser/parser_test.go:52-64 | "+-" parses to the two instructions the test expects, with the corrected parser |
| Scenarios.ParseMovesScenario | parser/parser_test.go:65-85 | ">><>" parses to the four moves the test expects, with the corrected parser |
| Scenarios.NestedScenario | parser/parser_test.go:86-114 | "[[]][]" parses to targets 3, 2, 1, 0, 5, 4 |
| Scenarios.OptimizeRunsScenario | instructions/optimizer_test.go:14-34 | The test's runs fold to `Increment` 3, `Decrement` 2, `Increment` 1, `MoveRight` 2, `MoveLeft` 2 |
| Scenarios.OptimizeJumpsScenario | instructions/optimizer_test.go:35-55 | The test's jumps are remapped to the targets it expects |
| Scenarios.OptimizeNoClearScenario | instructions/optimizer_test.go:145-165 | `[++--]` is folded run by run and not rewritten into `Clear`; a lone trailing instruction keeps operand 0 |

## Left out

- Compiler.Compile: the full code layout is proved only for a fresh JIT (`CompileNewLayout`). For a JIT that already holds code, only lengths and the memory size are stated. The program calls `Compile` once, on a new JIT.
- Compiler.Compile: on an error the source returns with the partly written code and blocks left in the JIT. The model returns the error alone.
- Optimizer.JumpTargetsFollow: says nothing about a jump whose target sits inside a folded run. A parsed program never has one, because jumps only target jumps.
- Optimizer.OptimizeInstructions: no equivalence with the interpreter is stated. The interpreter ignores the run lengths the optimizer produces (`Interpreter.OperandIgnored`), so the source offers none to state.
- The third optimizer test case (instructions/optimizer_test.go:56-144) is not restated. Evaluating a 43-instruction stream step by step is beyond what the verifier does cheaply. The general lemmas cover it.
- The compiler test's full byte array (jit/compiler_darwin_arm64_test.go:30-39) is not restated. It was written for an older encoder that always used immediate 1. Only the prologue, the epilogue and the first block are stated (`Pipeline.CountedMove`).
- The `fmt.Printf` diagnostics of the optimizer: output only.
- Execution of the generated code: mmap, mprotect and the native call (jit/runner_darwin_arm64.go, `run` in jit_darwin_arm64.go). The model covers the bytes, not their execution.
- The Darwin syscall sequences of `Write` and `Read` blocks: opaque 24-byte constants.
- jit_linux.go: placeholder code with no compiler logic.
- The root package's parser.go, instruction.go and jit_darwin_arm64.go compiler: older copies of the modelled code.
- main.go: flag parsing, file and stdin reading and the hex dump are I/O. `Pipeline.Build` keeps only the parse, optimize and compile order.
- terminal.go and the constants files: terminal ioctl calls.
- The clear-loop (`[-]` to `Clear`) optimization: the code does not implement it.
- Go iterates the input as runes, and an invalid UTF-8 byte becomes U+FFFD. Input here is a sequence of characters, and every non-command character is skipped either way.
- `Jit.memorySize` is a Go `uint`. It is a `nat` here, and the compiler never reads it.

## Findings

| source | as written | input that shows it | evidently intended | confidence | as-written member | corrected member |
|---|---|---|---|---|---|---|
| jit/compiler_darwin_arm64.go:213-221 | The word offset is sign-extended from bit 18 before the range check. A positive offset with bit 18 set becomes negative and passes the check. | A `[` whose partner `]` lies past 2^18 - 3 moves (`Compiler.FarJump(0x3_FFFD)`): its branch of 2^18 instructions forward is compiled as 2^18 instructions backward. | Reject every word offset outside [-2^18, 2^18), as the comment before the check says. | not executed | Compiler.FarJumpGoesBackward | Arm64.EncodeBranch |
| parser/parser.go:42 | Every non-jump instruction gets operand 0. The compiler uses the operand as the immediate of its add/sub, and the optimizer keeps operands of instructions outside runs. | ">" compiles to `add x9, x9, #0`, so the move does nothing. | Operand 1, as the parser test expects (parser/parser_test.go:52-85) and the compiler's "by one" comment says. | not executed | Pipeline.ZeroOperandMove | Parser.ParseCounted |
