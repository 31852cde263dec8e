/**
 * The repository's unit tests, restated as facts about the model: each
 * lemma fixes the inputs a test uses and states the outcome it expects.
 */
module Scenarios {
  import opened Wrappers
  import opened Integers
  import opened Instructions
  import opened Interpreter
  import opened Parser
  import opened Optimizer

  /** A machine with the given memory and program and no I/O. */
  function Machine(memory: seq<byte>, code: seq<Instruction>): Cpu
  {
    Cpu(memory, code, [], [], [], 0, 0)
  }

  function Op(name: Opcode): Instruction
  {
    Instruction(name, 0)
  }

  // ----- cpu_test.go -----

  /** Three moves right over three cells visit 1, 2 and then 0. */
  lemma MoveRightScenario()
    ensures var m0 := Machine([0, 0, 0], []);
      && Execute(m0, Op(MoveRight)).Ok? && Execute(m0, Op(MoveRight)).value.addressCounter == 1
      && var m1 := Execute(m0, Op(MoveRight)).value;
      && Execute(m1, Op(MoveRight)).Ok? && Execute(m1, Op(MoveRight)).value.addressCounter == 2
      && var m2 := Execute(m1, Op(MoveRight)).value;
      && Execute(m2, Op(MoveRight)).Ok? && Execute(m2, Op(MoveRight)).value.addressCounter == 0
  {
  }

  /** Three moves left over three cells from the last visit 1, 0 and then 2. */
  lemma MoveLeftScenario()
    ensures var m0 := Machine([0, 0, 0], []).(addressCounter := 2);
      && Execute(m0, Op(MoveLeft)).Ok? && Execute(m0, Op(MoveLeft)).value.addressCounter == 1
      && var m1 := Execute(m0, Op(MoveLeft)).value;
      && Execute(m1, Op(MoveLeft)).Ok? && Execute(m1, Op(MoveLeft)).value.addressCounter == 0
      && var m2 := Execute(m1, Op(MoveLeft)).value;
      && Execute(m2, Op(MoveLeft)).Ok? && Execute(m2, Op(MoveLeft)).value.addressCounter == 2
  {
  }

  /** Three increments of a zero cell give 3. */
  lemma ArithmeticScenario()
    ensures Repeat(Machine([0, 0], []), Op(Increment), 3).Ok?
    ensures Repeat(Machine([0, 0], []), Op(Increment), 3).value.memory == [3, 0]
  {
    IncrementsWrap(Machine([0, 0], []), 0, 3);
    assert [0, 0][0 := 3] == [3, 0];
  }

  /** Three decrements of 3 give 0. */
  lemma DecrementScenario()
    ensures Repeat(Machine([3], []), Op(Decrement), 3).Ok?
    ensures Repeat(Machine([3], []), Op(Decrement), 3).value.memory == [0]
  {
    DecrementsWrap(Machine([3], []), 0, 3);
  }

  /** 255 increments of a zero cell give 255, and one more gives 0. */
  lemma MemoryOverflowScenario(m: Cpu)
    requires m.memory == [0] && m.addressCounter == 0
    ensures Repeat(m, Op(Increment), 255).Ok?
    ensures Repeat(m, Op(Increment), 255).value.memory == [255]
    ensures Repeat(m, Op(Increment), 256).Ok?
    ensures Repeat(m, Op(Increment), 256).value.memory == [0]
  {
    IncrementsOfZero(m, 255, 255);
    IncrementsOfZero(m, 256, 0);
  }

  lemma IncrementsOfZero(m: Cpu, n: nat, v: byte)
    requires m.memory == [0] && m.addressCounter == 0 && v as int == n % 0x100
    ensures Repeat(m, Op(Increment), n).Ok? && Repeat(m, Op(Increment), n).value.memory == [v]
  {
    IncrementsWrap(m, 0, n);
  }

  /** Decrementing a zero cell gives 255. */
  lemma MemoryUnderflowScenario()
    ensures Execute(Machine([0], []), Op(Decrement)).Ok?
    ensures Execute(Machine([0], []), Op(Decrement)).value.memory == [255]
  {
  }

  /** Writing "a", moving right and writing "z" emits "az"; a third
      write, which the writer fails, panics. */
  lemma WriteScenario()
    ensures var m0 := Machine([97, 122], []).(writes := [WriteAccepted, WriteAccepted, WriteFailed]);
      && Execute(m0, Op(Write)).Ok?
      && var m1 := Execute(m0, Op(Write)).value;
      && m1.output == [97]
      && Execute(m1, Op(MoveRight)).Ok?
      && var m2 := Execute(m1, Op(MoveRight)).value;
      && Execute(m2, Op(Write)).Ok?
      && var m3 := Execute(m2, Op(Write)).value;
      && m3.output == [97, 122]
      && Execute(m3, Op(Write)) == Err(IoError)
  {
  }

  /** Reading "a" into cell 0 and "z" into cell 1; a third read hits the
      end of the input and panics. */
  lemma ReadScenario()
    ensures var m0 := Machine([0, 0], []).(input := [ByteRead(97), ByteRead(122)]);
      && Execute(m0, Op(Read)).Ok?
      && var m1 := Execute(m0, Op(Read)).value;
      && m1.memory == [97, 0]
      && Execute(m1, Op(MoveRight)).Ok?
      && var m2 := Execute(m1, Op(MoveRight)).value;
      && Execute(m2, Op(Read)).Ok?
      && var m3 := Execute(m2, Op(Read)).value;
      && m3.memory == [97, 122]
      && Execute(m3, Op(Read)) == Err(IoError)
  {
  }

  /** `[ ++ ]` by hand: the opening jump on a zero cell falls through, and
      the closing jump on a non-zero cell falls through as well when it is
      a `JumpIfZero`. */
  lemma JumpIfZeroScenario()
    ensures var m0 := Machine([0], []);
      && Execute(m0, Instruction(JumpUnlessZero, 4)).Ok?
      && var m1 := Execute(m0, Instruction(JumpUnlessZero, 4)).value;
      && m1.programCounter == 1
      && Repeat(m1, Op(Increment), 2).Ok?
      && var m2 := Repeat(m1, Op(Increment), 2).value;
      && m2.memory == [2]
      && Execute(m2, Instruction(JumpIfZero, 0)).Ok?
      && Execute(m2, Instruction(JumpIfZero, 0)).value.programCounter == 4
  {
  }

  /** `[ + ] [ - ]` by hand: jumps that are taken land on their operand. */
  lemma JumpUnlessZeroScenario()
    ensures var m0 := Machine([0], []);
      && Execute(m0, Instruction(JumpUnlessZero, 2)).Ok?
      && var m1 := Execute(m0, Instruction(JumpUnlessZero, 2)).value;
      && m1.programCounter == 1
      && Execute(m1, Op(Increment)).Ok?
      && var m2 := Execute(m1, Op(Increment)).value;
      && m2.memory == [1]
      && Execute(m2, Instruction(JumpIfZero, 0)).Ok?
      && var m3 := Execute(m2, Instruction(JumpIfZero, 0)).value;
      && m3.programCounter == 3
      && Execute(m3, Instruction(JumpUnlessZero, 5)).Ok?
      && var m4 := Execute(m3, Instruction(JumpUnlessZero, 5)).value;
      && m4.programCounter == 5
      && Execute(m4, Op(Decrement)).Ok?
      && var m5 := Execute(m4, Op(Decrement)).value;
      && m5.memory == [0]
      && Execute(m5, Instruction(JumpIfZero, 3)).Ok?
      && Execute(m5, Instruction(JumpIfZero, 3)).value.programCounter == 3
  {
  }

  /** `++>+<-` stepped through one instruction at a time. */
  lemma ExecuteSimpleScenario()
    ensures var code := [Op(Increment), Op(Increment), Op(MoveRight), Op(Increment), Op(MoveLeft), Op(Decrement)];
      var m := Machine([0, 0], code);
      && Steps(m, 1).Ok? && Steps(m, 1).value.memory == [1, 0]
      && Steps(m, 2).Ok? && Steps(m, 2).value.memory == [2, 0]
      && Steps(m, 3).Ok? && Steps(m, 3).value.memory == [2, 0]
      && Steps(m, 4).Ok? && Steps(m, 4).value.memory == [2, 1]
      && Steps(m, 5).Ok? && Steps(m, 5).value.memory == [2, 1]
      && Steps(m, 6).Ok? && Steps(m, 6).value.memory == [1, 1]
  {
  }

  /** A two-instruction program has instructions left before each of its
      two steps and none after them. */
  lemma HasInstructionsLeftScenario()
    ensures var m := Machine([0], [Op(Increment), Op(Increment)]);
      && HasInstructionsLeft(m)
      && Steps(m, 1).Ok? && HasInstructionsLeft(Steps(m, 1).value)
      && Steps(m, 2).Ok? && !HasInstructionsLeft(Steps(m, 2).value)
  {
    StraightLineRuns(Machine([0], [Op(Increment), Op(Increment)]));
  }

  // ----- parser/parser_test.go -----

  /** Each command character on its own parses to its opcode. */
  lemma ParseSingleScenario()
    ensures Parse("+") == Ok([Instruction(Increment, 0)])
    ensures Parse("-") == Ok([Instruction(Decrement, 0)])
    ensures Parse(">") == Ok([Instruction(MoveRight, 0)])
    ensures Parse("<") == Ok([Instruction(MoveLeft, 0)])
    ensures Parse(",") == Ok([Instruction(Read, 0)])
    ensures Parse(".") == Ok([Instruction(Write, 0)])
  {
    SingleCommand('+', 0);
    SingleCommand('-', 0);
    SingleCommand('>', 0);
    SingleCommand('<', 0);
    SingleCommand(',', 0);
    SingleCommand('.', 0);
  }

  lemma SingleCommand(c: char, unit: int)
    requires c in "+-><,."
    ensures ParseWith([c], unit) == Ok([Instruction(OpcodeOfChar(c), unit)])
  {
    assert BracketFree([c]);
    BracketFreeParse([c], unit);
    assert [c][..0] == [];
    assert Recognised([c]) == [OpcodeOfChar(c)];
    var r := ParseWith([c], unit).value;
    assert |r| == 1 && r[0] == Instruction(OpcodeOfChar(c), unit);
    assert r == [r[0]];
  }

  /** A character that is no command produces nothing and no error. */
  lemma ParseUnknownScenario()
    ensures Parse("x") == Ok([])
  {
  }

  /** A lone bracket fails with the message naming its missing partner. */
  lemma UnmatchedScenario()
    ensures Parse("[") == Err(NoMatchingClose) && Message(NoMatchingClose) == "no matching ']' found"
    ensures Parse("]") == Err(NoMatchingOpen) && Message(NoMatchingOpen) == "no matching '[' found"
  {
  }

  /** The multi-character cases, with the operand 1 the test expects:
      "+-" gives an increment and a decrement. */
  lemma ParseMultipleScenario()
    ensures ParseCounted("+-") == Ok([Instruction(Increment, 1), Instruction(Decrement, 1)])
  {
    BracketFreeParse("+-", 1);
    assert "+-"[..1] == "+" && "+"[..0] == "";
    assert Recognised("+-") == [Increment, Decrement];
    var r := ParseCounted("+-").value;
    assert |r| == 2 && r[0] == Instruction(Increment, 1) && r[1] == Instruction(Decrement, 1);
    assert r == [r[0], r[1]];
  }

  lemma MovesRecognised()
    ensures Recognised(">><>") == [MoveRight, MoveRight, MoveLeft, MoveRight]
  {
    assert ">><>"[..3] == ">><" && ">><"[..2] == ">>" && ">>"[..1] == ">" && ">"[..0] == "";
  }

  /** ">><>" gives the four moves in order. */
  lemma ParseMovesScenario()
    ensures ParseCounted(">><>") == Ok([Instruction(MoveRight, 1), Instruction(MoveRight, 1), Instruction(MoveLeft, 1), Instruction(MoveRight, 1)])
  {
    MovesRecognised();
    BracketFreeParse(">><>", 1);
    var q := ParseCounted(">><>").value;
    assert |q| == 4 && q[0] == Instruction(MoveRight, 1) && q[1] == Instruction(MoveRight, 1);
    assert q[2] == Instruction(MoveLeft, 1) && q[3] == Instruction(MoveRight, 1);
    assert q == [q[0], q[1], q[2], q[3]];
  }

  /** The brackets of "[[]][]" never close more than they open and balance
      at the end. */
  lemma NestedBrackets()
    ensures NeverNegative("[[]][]") && Depth("[[]][]") == 0
    ensures Recognised("[[]][]") == [JumpIfZero, JumpIfZero, JumpUnlessZero, JumpUnlessZero, JumpIfZero, JumpUnlessZero]
  {
    var s := "[[]][]";
    assert s[..6] == s;
    assert s[..5] == "[[]][";
    assert s[..4] == "[[]]";
    assert s[..3] == "[[]";
    assert s[..2] == "[[";
    assert s[..1] == "[";
    assert s[..0] == "";
    assert "[[]][" [..4] == "[[]]" && "[[]]"[..3] == "[[]" && "[[]"[..2] == "[[" && "[["[..1] == "[" && "["[..0] == "";
    forall p | 0 <= p <= |s| ensures Depth(s[..p]) >= 0 {
    }
  }

  lemma NestedParses()
    ensures Parse("[[]][]").Ok?
    ensures Names(Parse("[[]][]").value) == [JumpIfZero, JumpIfZero, JumpUnlessZero, JumpUnlessZero, JumpIfZero, JumpUnlessZero]
  {
    NestedBrackets();
  }

  /** The only paired, nested stream with the brackets of "[[]][]". */
  lemma NestedTargets(r: seq<Instruction>)
    requires Names(r) == [JumpIfZero, JumpIfZero, JumpUnlessZero, JumpUnlessZero, JumpIfZero, JumpUnlessZero]
    requires Paired(r) && Nested(r)
    ensures r == [Instruction(JumpIfZero, 3), Instruction(JumpIfZero, 2), Instruction(JumpUnlessZero, 1),
                  Instruction(JumpUnlessZero, 0), Instruction(JumpIfZero, 5), Instruction(JumpUnlessZero, 4)]
  {
    assert |r| == 6;
    assert r[0].name == JumpIfZero && r[1].name == JumpIfZero && r[2].name == JumpUnlessZero;
    assert r[3].name == JumpUnlessZero && r[4].name == JumpIfZero && r[5].name == JumpUnlessZero;
    assert PairedAt(r, 2) && PairedAt(r, 3) && PairedAt(r, 5);
    // Pairing alone would also allow 0-2 and 1-3, which cross.
    assert r[2].value == 1;
    assert r[0].value == 3 && r[1].value == 2 && r[2].value == 1 && r[3].value == 0 && r[4].value == 5 && r[5].value == 4;
    assert r == [r[0], r[1], r[2], r[3], r[4], r[5]];
  }

  lemma NestedScenario()
    ensures Parse("[[]][]") == Ok([Instruction(JumpIfZero, 3), Instruction(JumpIfZero, 2), Instruction(JumpUnlessZero, 1),
                                   Instruction(JumpUnlessZero, 0), Instruction(JumpIfZero, 5), Instruction(JumpUnlessZero, 4)])
  {
    NestedParses();
    NestedTargets(Parse("[[]][]").value);
  }

  // ----- instructions/optimizer_test.go -----

  function RunsProgram(): seq<Instruction>
  {
    [Instruction(Increment, 1), Instruction(Increment, 1), Instruction(Increment, 1), Instruction(Decrement, 1),
     Instruction(Decrement, 1), Instruction(Increment, 1), Instruction(MoveRight, 1), Instruction(MoveRight, 1),
     Instruction(MoveLeft, 1), Instruction(MoveLeft, 1)]
  }

  lemma RunsProgramCompressed0(p: seq<Instruction>)
    requires p == RunsProgram()
    ensures Compress(p, 5) == Compressed([Instruction(Increment, 1), Instruction(MoveRight, 2), Instruction(MoveLeft, 2)],
      [OptimizedBlock(6, 1, MoveRight), OptimizedBlock(8, 1, MoveLeft)])
  {
    assert Compress(p, 10) == Compressed([], []);
    assert RunLength(p, 9) == 1 && RunLength(p, 8) == 2;
    assert Compress(p, 8) == Compressed([Instruction(MoveLeft, 2)],
      [OptimizedBlock(8, 1, MoveLeft)]);
    assert RunLength(p, 7) == 1 && RunLength(p, 6) == 2;
    assert Compress(p, 6) == Compressed([Instruction(MoveRight, 2), Instruction(MoveLeft, 2)],
      [OptimizedBlock(6, 1, MoveRight), OptimizedBlock(8, 1, MoveLeft)]);
  }

  lemma RunsProgramCompressed1(p: seq<Instruction>)
    requires p == RunsProgram()
    ensures Compress(p, 0) == Compressed([Instruction(Increment, 3), Instruction(Decrement, 2), Instruction(Increment, 1), Instruction(MoveRight, 2),
        Instruction(MoveLeft, 2)],
      [OptimizedBlock(0, 2, Increment), OptimizedBlock(3, 1, Decrement), OptimizedBlock(6, 1, MoveRight), OptimizedBlock(8, 1, MoveLeft)])
  {
    RunsProgramCompressed0(p);
    assert RunLength(p, 4) == 1 && RunLength(p, 3) == 2;
    assert Compress(p, 3) == Compressed([Instruction(Decrement, 2), Instruction(Increment, 1), Instruction(MoveRight, 2), Instruction(MoveLeft, 2)],
      [OptimizedBlock(3, 1, Decrement), OptimizedBlock(6, 1, MoveRight), OptimizedBlock(8, 1, MoveLeft)]);
    assert RunLength(p, 2) == 1 && RunLength(p, 1) == 2 && RunLength(p, 0) == 3;
  }

  lemma RunsProgramRecalculated()
    ensures RecalculateJumps([Instruction(Increment, 3), Instruction(Decrement, 2), Instruction(Increment, 1),
      Instruction(MoveRight, 2), Instruction(MoveLeft, 2)],
      [OptimizedBlock(0, 2, Increment), OptimizedBlock(3, 1, Decrement), OptimizedBlock(6, 1, MoveRight), OptimizedBlock(8, 1, MoveLeft)])
      == [Instruction(Increment, 3), Instruction(Decrement, 2), Instruction(Increment, 1),
      Instruction(MoveRight, 2), Instruction(MoveLeft, 2)]
  {
    var out, records := [Instruction(Increment, 3), Instruction(Decrement, 2), Instruction(Increment, 1),
      Instruction(MoveRight, 2), Instruction(MoveLeft, 2)],
      [OptimizedBlock(0, 2, Increment), OptimizedBlock(3, 1, Decrement), OptimizedBlock(6, 1, MoveRight), OptimizedBlock(8, 1, MoveLeft)];
    var r := RecalculateJumps(out, records);
    assert |r| == 5 && forall q :: 0 <= q < 5 ==> r[q] == [Instruction(Increment, 3), Instruction(Decrement, 2), Instruction(Increment, 1),
      Instruction(MoveRight, 2), Instruction(MoveLeft, 2)][q];
  }

  /** Runs fold into one instruction carrying the run length. */
  lemma OptimizeRunsScenario()
    ensures OptimizeInstructions(RunsProgram())
      == [Instruction(Increment, 3), Instruction(Decrement, 2), Instruction(Increment, 1),
         Instruction(MoveRight, 2), Instruction(MoveLeft, 2)]
  {
    RunsProgramCompressed1(RunsProgram());
    RunsProgramRecalculated();
  }

  function JumpsProgram(): seq<Instruction>
  {
    [Instruction(Increment, 1), Instruction(JumpIfZero, 4), Instruction(Increment, 1), Instruction(Increment, 1),
     Instruction(JumpUnlessZero, 1), Instruction(Increment, 1), Instruction(JumpIfZero, 7), Instruction(JumpUnlessZero, 6)]
  }

  lemma JumpsProgramCompressed0(p: seq<Instruction>)
    requires p == JumpsProgram()
    ensures Compress(p, 5) == Compressed([Instruction(Increment, 1), Instruction(JumpIfZero, 7), Instruction(JumpUnlessZero, 6)],
      [])
  {
    assert Compress(p, 8) == Compressed([], []);
    assert Compress(p, 7) == Compressed([Instruction(JumpUnlessZero, 6)],
      []);
    assert Compress(p, 6) == Compressed([Instruction(JumpIfZero, 7), Instruction(JumpUnlessZero, 6)],
      []);
  }

  lemma JumpsProgramCompressed1(p: seq<Instruction>)
    requires p == JumpsProgram()
    ensures Compress(p, 1) == Compressed([Instruction(JumpIfZero, 4), Instruction(Increment, 2), Instruction(JumpUnlessZero, 1), Instruction(Increment, 1),
        Instruction(JumpIfZero, 7), Instruction(JumpUnlessZero, 6)],
      [OptimizedBlock(2, 1, Increment)])
  {
    JumpsProgramCompressed0(p);
    assert Compress(p, 4) == Compressed([Instruction(JumpUnlessZero, 1), Instruction(Increment, 1), Instruction(JumpIfZero, 7), Instruction(JumpUnlessZero, 6)],
      []);
    assert RunLength(p, 3) == 1 && RunLength(p, 2) == 2;
    assert Compress(p, 2) == Compressed([Instruction(Increment, 2), Instruction(JumpUnlessZero, 1), Instruction(Increment, 1), Instruction(JumpIfZero, 7),
        Instruction(JumpUnlessZero, 6)],
      [OptimizedBlock(2, 1, Increment)]);
  }

  lemma JumpsProgramCompressed2(p: seq<Instruction>)
    requires p == JumpsProgram()
    ensures Compress(p, 0) == Compressed([Instruction(Increment, 1), Instruction(JumpIfZero, 4), Instruction(Increment, 2), Instruction(JumpUnlessZero, 1),
        Instruction(Increment, 1), Instruction(JumpIfZero, 7), Instruction(JumpUnlessZero, 6)],
      [OptimizedBlock(2, 1, Increment)])
  {
    JumpsProgramCompressed1(p);
  }

  lemma JumpsProgramRecalculated()
    ensures RecalculateJumps([Instruction(Increment, 1), Instruction(JumpIfZero, 4), Instruction(Increment, 2),
      Instruction(JumpUnlessZero, 1), Instruction(Increment, 1), Instruction(JumpIfZero, 7),
      Instruction(JumpUnlessZero, 6)],
      [OptimizedBlock(2, 1, Increment)])
      == [Instruction(Increment, 1), Instruction(JumpIfZero, 3), Instruction(Increment, 2),
      Instruction(JumpUnlessZero, 1), Instruction(Increment, 1), Instruction(JumpIfZero, 6),
      Instruction(JumpUnlessZero, 5)]
  {
    var out, records := [Instruction(Increment, 1), Instruction(JumpIfZero, 4), Instruction(Increment, 2),
      Instruction(JumpUnlessZero, 1), Instruction(Increment, 1), Instruction(JumpIfZero, 7),
      Instruction(JumpUnlessZero, 6)],
      [OptimizedBlock(2, 1, Increment)];
    assert Shift(records, 1, 4) == 1;
    assert Shift(records, 3, 1) == 0;
    assert Shift(records, 5, 7) == 1;
    assert Shift(records, 6, 6) == 1;
    var r := RecalculateJumps(out, records);
    assert |r| == 7 && forall q :: 0 <= q < 7 ==> r[q] == [Instruction(Increment, 1), Instruction(JumpIfZero, 3), Instruction(Increment, 2),
      Instruction(JumpUnlessZero, 1), Instruction(Increment, 1), Instruction(JumpIfZero, 6),
      Instruction(JumpUnlessZero, 5)][q];
  }

  /** Jump targets move down by the instructions folded before them. */
  lemma OptimizeJumpsScenario()
    ensures OptimizeInstructions(JumpsProgram())
      == [Instruction(Increment, 1), Instruction(JumpIfZero, 3), Instruction(Increment, 2),
         Instruction(JumpUnlessZero, 1), Instruction(Increment, 1), Instruction(JumpIfZero, 6),
         Instruction(JumpUnlessZero, 5)]
  {
    JumpsProgramCompressed2(JumpsProgram());
    JumpsProgramRecalculated();
  }

  function NoClearProgram(): seq<Instruction>
  {
    [Instruction(Increment, 0), Instruction(Increment, 0), Instruction(JumpIfZero, 6), Instruction(Increment, 0),
     Instruction(Increment, 0), Instruction(Decrement, 0), Instruction(Decrement, 0), Instruction(JumpUnlessZero, 2),
     Instruction(Increment, 0)]
  }

  lemma NoClearProgramCompressed0(p: seq<Instruction>)
    requires p == NoClearProgram()
    ensures Compress(p, 5) == Compressed([Instruction(Decrement, 2), Instruction(JumpUnlessZero, 2), Instruction(Increment, 0)],
      [OptimizedBlock(5, 1, Decrement)])
  {
    assert Compress(p, 9) == Compressed([], []);
    assert Compress(p, 8) == Compressed([Instruction(Increment, 0)],
      []);
    assert Compress(p, 7) == Compressed([Instruction(JumpUnlessZero, 2), Instruction(Increment, 0)],
      []);
    assert RunLength(p, 6) == 1 && RunLength(p, 5) == 2;
  }

  lemma NoClearProgramCompressed1(p: seq<Instruction>)
    requires p == NoClearProgram()
    ensures Compress(p, 0) == Compressed([Instruction(Increment, 2), Instruction(JumpIfZero, 6), Instruction(Increment, 2), Instruction(Decrement, 2),
        Instruction(JumpUnlessZero, 2), Instruction(Increment, 0)],
      [OptimizedBlock(0, 1, Increment), OptimizedBlock(3, 1, Increment), OptimizedBlock(5, 1, Decrement)])
  {
    NoClearProgramCompressed0(p);
    assert RunLength(p, 4) == 1 && RunLength(p, 3) == 2;
    assert Compress(p, 3) == Compressed([Instruction(Increment, 2), Instruction(Decrement, 2), Instruction(JumpUnlessZero, 2), Instruction(Increment, 0)],
      [OptimizedBlock(3, 1, Increment), OptimizedBlock(5, 1, Decrement)]);
    assert Compress(p, 2) == Compressed([Instruction(JumpIfZero, 6), Instruction(Increment, 2), Instruction(Decrement, 2), Instruction(JumpUnlessZero, 2),
        Instruction(Increment, 0)],
      [OptimizedBlock(3, 1, Increment), OptimizedBlock(5, 1, Decrement)]);
    assert RunLength(p, 1) == 1 && RunLength(p, 0) == 2;
  }

  lemma NoClearProgramRecalculated()
    ensures RecalculateJumps([Instruction(Increment, 2), Instruction(JumpIfZero, 6), Instruction(Increment, 2),
      Instruction(Decrement, 2), Instruction(JumpUnlessZero, 2), Instruction(Increment, 0)],
      [OptimizedBlock(0, 1, Increment), OptimizedBlock(3, 1, Increment), OptimizedBlock(5, 1, Decrement)])
      == [Instruction(Increment, 2), Instruction(JumpIfZero, 4), Instruction(Increment, 2),
      Instruction(Decrement, 2), Instruction(JumpUnlessZero, 1), Instruction(Increment, 0)]
  {
    var out, records := [Instruction(Increment, 2), Instruction(JumpIfZero, 6), Instruction(Increment, 2),
      Instruction(Decrement, 2), Instruction(JumpUnlessZero, 2), Instruction(Increment, 0)],
      [OptimizedBlock(0, 1, Increment), OptimizedBlock(3, 1, Increment), OptimizedBlock(5, 1, Decrement)];
    assert Shift(records, 1, 6) == 2;
    assert Shift(records, 4, 2) == 1;
    var r := RecalculateJumps(out, records);
    assert |r| == 6 && forall q :: 0 <= q < 6 ==> r[q] == [Instruction(Increment, 2), Instruction(JumpIfZero, 4), Instruction(Increment, 2),
      Instruction(Decrement, 2), Instruction(JumpUnlessZero, 1), Instruction(Increment, 0)][q];
  }

  /** `[++--]` is folded run by run; it is not turned into `Clear`, and a
      lone instruction keeps its operand 0. */
  lemma OptimizeNoClearScenario()
    ensures OptimizeInstructions(NoClearProgram())
      == [Instruction(Increment, 2), Instruction(JumpIfZero, 4), Instruction(Increment, 2),
         Instruction(Decrement, 2), Instruction(JumpUnlessZero, 1), Instruction(Increment, 0)]
  {
    NoClearProgramCompressed1(NoClearProgram());
    NoClearProgramRecalculated();
  }
}
