/**
 * How the pieces fit together: source text is parsed, optionally
 * optimized, and compiled into a fresh JIT, as the program's entry point
 * does. A build takes the parser's default operand and the branch
 * encoder's range check as parameters: the program's own build uses the
 * parser and the encoder as written, the corrected build the counted
 * parser and the corrected range check. This module also holds the two
 * halves of the operand finding: the parser as written gives every
 * non-jump instruction operand 0, which the compiler turns into moves and
 * cell updates by 0; the corrected parser gives operand 1, and then every
 * operand counts source characters.
 */
module Pipeline {
  import opened Wrappers
  import opened Integers
  import opened Instructions
  import opened Parser
  import opened Optimizer
  import opened Arm64
  import opened Compiler
  import opened Interpreter

  datatype BuildError = ParseFailed(parseError: ParseError) | CompileFailed(compileError: CompileError)

  /** The program handed to the compiler: the parsed one, optimized unless
      optimization is switched off. */
  function Prepared(prog: seq<Instruction>, optimize: bool): seq<Instruction>
  {
    if optimize then OptimizeInstructions(prog) else prog
  }

  /** Parse with default operand `unit`, optimize unless switched off,
      and compile into a fresh JIT of `memorySize` cells with the branch
      encoder under `rel`. */
  function BuildWith(unit: int, rel: Relocation, source: string, memorySize: nat, optimize: bool)
    : (r: Result<Jit, BuildError>)
    ensures r.Err? && r.error.ParseFailed? <==> ParseWith(source, unit).Err?
    ensures r.Err? && r.error.ParseFailed? ==> r.error.parseError == ParseWith(source, unit).error
    ensures r.Ok? ==> r.value.memorySize == memorySize
  {
    match ParseWith(source, unit)
    case Err(e) => Err(ParseFailed(e))
    case Ok(prog) =>
      match Compile(rel, NewJit(memorySize), Prepared(prog, optimize))
      case Err(e) => Err(CompileFailed(e))
      case Ok(j) =>
        CompileNewLayout(rel, memorySize, Prepared(prog, optimize));
        Ok(j)
  }

  /** The program's entry point: the parser as written, the optimizer
      unless switched off, and the compiler with the encoder as written. */
  function Build(source: string, memorySize: nat, optimize: bool): (r: Result<Jit, BuildError>)
    ensures r.Err? && r.error.ParseFailed? <==> Parse(source).Err?
    ensures r.Err? && r.error.ParseFailed? ==> r.error.parseError == Parse(source).error
    ensures r.Ok? ==> r.value.memorySize == memorySize
  {
    BuildWith(0, AsWritten, source, memorySize, optimize)
  }

  /** The build with both corrections: the counted parser and the
      corrected range check on branches. */
  function BuildCorrected(source: string, memorySize: nat, optimize: bool): (r: Result<Jit, BuildError>)
    ensures r.Err? && r.error.ParseFailed? <==> ParseCounted(source).Err?
    ensures r.Err? && r.error.ParseFailed? ==> r.error.parseError == ParseCounted(source).error
    ensures r.Ok? ==> r.value.memorySize == memorySize
  {
    BuildWith(1, Corrected, source, memorySize, optimize)
  }

  /** Paired brackets point inside the program. */
  lemma PairedTargetsInRange(prog: seq<Instruction>)
    requires Paired(prog)
    ensures TargetsInRange(prog)
  {
    forall k | 0 <= k < |prog| && IsJump(prog[k])
      ensures 0 <= prog[k].value < |prog|
    {
      assert PairedAt(prog, k);
    }
  }

  /** Whatever source text it is given, a build never fails to link a jump,
      and a successful build is the compilation of the prepared program.
      Without optimization every operand is the parser's default, so when
      that fits an immediate the build fails exactly when the encoder under
      `rel` refuses a branch, with "offset is out of range". */
  lemma BuildOutcome(unit: int, rel: Relocation, source: string, memorySize: nat, optimize: bool)
    requires ParseWith(source, unit).Ok?
    ensures var prog := Prepared(ParseWith(source, unit).value, optimize);
            && TargetsInRange(prog)
            && var r := BuildWith(unit, rel, source, memorySize, optimize);
            && (r.Ok? ==> Compiled(rel, prog, r.value))
            && (r.Err? ==> r.error.CompileFailed? && r.error.compileError != LinkOutOfRange)
            && (!optimize && 0 <= unit < 0x1000 ==> (r.Err? <==> !BranchesFit(rel, prog)))
            && (r.Err? && !optimize && 0 <= unit < 0x1000 ==> r.error == CompileFailed(Encode(OffsetOutOfRange)))
  {
    var parsed := ParseWith(source, unit).value;
    var prog := Prepared(parsed, optimize);
    if optimize {
      OptimizePreservesPairing(parsed);
    }
    PairedTargetsInRange(prog);
    CompileNewErrors(rel, memorySize, prog);
    if Compile(rel, NewJit(memorySize), prog).Ok? {
      CompileNewLayout(rel, memorySize, prog);
    }
    if !optimize && 0 <= unit < 0x1000 {
      assert !BadImmediate(prog) by {
        forall k | 0 <= k < |prog|
          ensures Emission(prog[k]).Ok?
        {
          if CanBeOptimized(prog[k]) {
            JumpsAreNotOptimizable(prog[k]);
          }
        }
      }
    }
  }

  /** A program of one `MoveRight` compiles to the prologue, the one add
      instruction of that move, and the epilogue. */
  lemma SingleMoveCompiles(rel: Relocation, memorySize: nat, v: int)
    requires 0 <= v < 0x1000
    ensures Compile(rel, NewJit(memorySize), [Instruction(MoveRight, v)]).Ok?
    ensures GeneratedCode(Compile(rel, NewJit(memorySize), [Instruction(MoveRight, v)]).value)
            == Prologue + Emission(Instruction(MoveRight, v)).value + Epilogue
  {
    var prog := [Instruction(MoveRight, v)];
    assert TargetsInRange(prog);
    assert !BadImmediate(prog) by {
      forall k | 0 <= k < |prog| ensures Emission(prog[k]).Ok? {
      }
    }
    CompileNewErrors(rel, memorySize, prog);
    CompileNewLayout(rel, memorySize, prog);
    var code := Compile(rel, NewJit(memorySize), prog).value.code;
    assert BlockCompiled(prog, code, 0);
    SingleBlockCode(prog, code);
  }

  /** The code of a compiled one-instruction program that is not a jump:
      the block sits between the prologue and the epilogue. */
  lemma SingleBlockCode(prog: seq<Instruction>, c: seq<byte>)
    requires |prog| == 1 && BlockCompiled(prog, c, 0)
    requires |c| == Offsets(prog)[1] + |Epilogue| && |Prologue| <= Offsets(prog)[1]
    requires c[..|Prologue|] == Prologue && c[Offsets(prog)[1]..] == Epilogue
    ensures Emission(prog[0]).Ok? && c == Prologue + Emission(prog[0]).value + Epilogue
  {
    var o, e := Offsets(prog), Emission(prog[0]).value;
    assert o[0] == 16;
    assert c[16..o[1]] == e;
    calc {
      c;
      c[..16] + c[16..];
      { assert c[16..] == c[16..o[1]] + c[o[1]..]; }
      c[..16] + (c[16..o[1]] + c[o[1]..]);
      Prologue + (e + Epilogue);
    }
  }

  /** The word `add x9, x9, #v` for the two operands at issue, as bytes. */
  lemma MoveEmissions()
    ensures Emission(Instruction(MoveRight, 0)) == Ok([0x29, 0x01, 0x00, 0x91])
    ensures Emission(Instruction(MoveRight, 1)) == Ok([0x29, 0x05, 0x00, 0x91])
  {
    assert MathWord(Add, 9, 0) == 0x9100_0129;
    assert LittleEndian(0x9100_0129) == [0x29, 0x01, 0x00, 0x91];
    assert MathWord(Add, 9, 1) == 0x9100_0529;
    assert LittleEndian(0x9100_0529) == [0x29, 0x05, 0x00, 0x91];
  }

  /** A one-`MoveRight` program with operand 0 or 1 compiles to the
      prologue, `add x9, x9, #0` or `add x9, x9, #1`, and the epilogue. */
  lemma CompiledMove(rel: Relocation, memorySize: nat, v: int)
    requires v == 0 || v == 1
    ensures Compile(rel, NewJit(memorySize), [Instruction(MoveRight, v)]).Ok?
    ensures GeneratedCode(Compile(rel, NewJit(memorySize), [Instruction(MoveRight, v)]).value)
            == Prologue + (if v == 0 then [0x29, 0x01, 0x00, 0x91] else [0x29, 0x05, 0x00, 0x91]) + Epilogue
  {
    SingleMoveCompiles(rel, memorySize, v);
    MoveEmissions();
  }

  /** The bytes 29 01 00 91 are the word `add x9, x9, #0`. */
  lemma AddZeroDecodes()
    ensures FromLittleEndian([0x29, 0x01, 0x00, 0x91]) == 0x9100_0129
    ensures DecodeAddSubImmediate(0x9100_0129) == Some(AddSubImmediate(true, false, false, false, 0, 9, 9))
  {
  }

  /** The interpreter moves the address counter on `MoveRight` whatever its
      operand, as long as there are two cells or more. */
  lemma InterpretedMoveMoves(cpu: Cpu, v: int)
    requires InMemory(cpu) && |cpu.memory| >= 2
    ensures Execute(cpu, Instruction(MoveRight, v)).Ok?
    ensures Execute(cpu, Instruction(MoveRight, v)).value.addressCounter != cpu.addressCounter
  {
  }

  /** The parser as written: the source ">" becomes a `MoveRight` with
      operand 0, optimization keeps it, and the program's build compiles
      it to `add x9, x9, #0`, which leaves the address register where it
      was; the reference interpreter, which ignores the operand, moves one
      cell on the same instruction. */
  lemma ZeroOperandMove(memorySize: nat, cpu: Cpu)
    requires InMemory(cpu) && |cpu.memory| >= 2
    ensures Parse(">") == Ok([Instruction(MoveRight, 0)])
    ensures OptimizeInstructions([Instruction(MoveRight, 0)]) == [Instruction(MoveRight, 0)]
    ensures Build(">", memorySize, true).Ok?
    ensures GeneratedCode(Build(">", memorySize, true).value) == Prologue + [0x29, 0x01, 0x00, 0x91] + Epilogue
    ensures DecodeAddSubImmediate(0x9100_0129) == Some(AddSubImmediate(true, false, false, false, 0, 9, 9))
    ensures Execute(cpu, Instruction(MoveRight, 0)).Ok?
    ensures Execute(cpu, Instruction(MoveRight, 0)).value.addressCounter != cpu.addressCounter
  {
    ParsedSingleMove(0);
    OptimizeNoRunsIdentity([Instruction(MoveRight, 0)]);
    CompiledMove(AsWritten, memorySize, 0);
    AddZeroDecodes();
    InterpretedMoveMoves(cpu, 0);
  }

  /** ">" parses to one `MoveRight` carrying the parser's operand. */
  lemma ParsedSingleMove(unit: int)
    ensures ParseWith(">", unit) == Ok([Instruction(MoveRight, unit)])
  {
    assert ">"[..0] == [] && ">"[..1] == ">";
    assert NeverNegative(">") by {
      forall p | 0 <= p <= 1 ensures Depth(">"[..p]) >= 0 {
      }
    }
    assert Recognised(">") == [MoveRight] by {
      assert ">"[..0] == [];
    }
    assert Depth(">") == 0;
    var r := ParseWith(">", unit).value;
    assert Names(r) == [MoveRight];
    assert |r| == 1 && r[0] == Instruction(MoveRight, unit);
    assert r == [r[0]];
  }

  /** The corrected parser: ">" becomes a `MoveRight` with operand 1 and
      the corrected build compiles it to `add x9, x9, #1`, the bytes the
      compiler's test expects for its first block. */
  lemma CountedMove(memorySize: nat)
    ensures ParseCounted(">") == Ok([Instruction(MoveRight, 1)])
    ensures BuildCorrected(">", memorySize, true).Ok?
    ensures GeneratedCode(BuildCorrected(">", memorySize, true).value) == Prologue + [0x29, 0x05, 0x00, 0x91] + Epilogue
  {
    ParsedSingleMove(1);
    OptimizeNoRunsIdentity([Instruction(MoveRight, 1)]);
    CompiledMove(Corrected, memorySize, 1);
  }

  /** With the corrected parser, the operand of every foldable instruction
      after optimization is the number of source characters it stands for:
      the length of the run of equal instructions it starts. */
  lemma CountedOperandsAreRunLengths(source: string)
    requires ParseCounted(source).Ok?
    ensures var prog := ParseCounted(source).value;
            var r := OptimizeInstructions(prog);
            forall j :: 0 <= j < |prog| && !Absorbed(prog, j) && CanBeOptimized(prog[j]) ==>
              0 <= Position(prog, j) < |r| && r[Position(prog, j)] == Instruction(prog[j].name, RunLength(prog, j))
    ensures var r := OptimizeInstructions(ParseCounted(source).value);
            forall p :: 0 <= p < |r| && CanBeOptimized(r[p]) ==> r[p].value >= 1
  {
    var prog := ParseCounted(source).value;
    var r := OptimizeInstructions(prog);
    OptimizePlacement(prog);
    forall j | 0 <= j < |prog| && !Absorbed(prog, j) && CanBeOptimized(prog[j])
      ensures 0 <= Position(prog, j) < |r| && r[Position(prog, j)] == Instruction(prog[j].name, RunLength(prog, j))
    {
      JumpsAreNotOptimizable(prog[j]);
      assert prog[j].value == 1;
      if !Compressible(prog, j) {
        assert RunLength(prog, j) == 1;
      }
    }
    forall p | 0 <= p < |r| && CanBeOptimized(r[p])
      ensures r[p].value >= 1
    {
      OptimizeCovers(prog, p);
      var j :| 0 <= j < |prog| && !Absorbed(prog, j) && Position(prog, j) == p && r[p].name == prog[j].name;
      assert CanBeOptimized(prog[j]);
    }
  }
}
