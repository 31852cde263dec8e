/**
 * The reference interpreter of cpu.go: a tape machine with a wrapping
 * address counter, 8-bit cells and jump-to-partner control flow.
 *
 * The Go `Cpu` holds an `io.Reader` and an `io.Writer`. Here the reader is
 * the sequence of outcomes its successive one-byte `Read` calls return (an
 * exhausted sequence reads as `io.EOF`), and the writer is the bytes written
 * so far together with the outcomes its successive `Write` calls return (an
 * exhausted sequence accepts every write). A Go panic
 * (an index out of range, or the explicit panic on an I/O error) is an
 * `Err` carrying a `Fault`.
 */
module Interpreter {
  import opened Wrappers
  import opened Integers
  import opened Instructions

  /** What one `Read` into a one-byte buffer returns: a byte, no byte and
      no error, or an error. */
  datatype ReadOutcome = ByteRead(b: byte) | NothingRead | ReadFailed

  /** What one `Write` of a one-byte buffer returns: success or an error. */
  datatype WriteOutcome = WriteAccepted | WriteFailed

  datatype Cpu = Cpu(
    memory: seq<byte>,
    code: seq<Instruction>,
    input: seq<ReadOutcome>,
    output: seq<byte>,
    writes: seq<WriteOutcome>,
    programCounter: int,
    addressCounter: int)

  /** The two reasons `Execute` panics. */
  datatype Fault = IndexOutOfRange | IoError

  /** The address counter designates a cell. */
  predicate InMemory(cpu: Cpu)
  {
    0 <= cpu.addressCounter < |cpu.memory|
  }

  /** The outcome the next `Read` call returns. */
  function NextRead(cpu: Cpu): ReadOutcome
  {
    if |cpu.input| == 0 then ReadFailed else cpu.input[0]
  }

  /** The outcome the next `Write` call returns. */
  function NextWrite(cpu: Cpu): WriteOutcome
  {
    if |cpu.writes| == 0 then WriteAccepted else cpu.writes[0]
  }

  /** The instructions whose execution indexes the current cell whatever
      the reader returns. */
  predicate TouchesCell(op: Opcode)
  {
    op == Increment || op == Decrement || op == Write || op == JumpIfZero || op == JumpUnlessZero
  }

  /** A jump that transfers control: `JumpIfZero` on a zero cell,
      `JumpUnlessZero` on a non-zero one. */
  predicate Taken(cpu: Cpu, instruction: Instruction)
    requires InMemory(cpu)
  {
    || (instruction.name == JumpIfZero && cpu.memory[cpu.addressCounter] == 0)
    || (instruction.name == JumpUnlessZero && cpu.memory[cpu.addressCounter] != 0)
  }

  /** `MoveRight`: one cell to the right, from the last cell back to the
      first. */
  function MovedRight(cpu: Cpu): (c: Cpu)
    ensures c == cpu.(addressCounter := c.addressCounter, programCounter := cpu.programCounter + 1)
    ensures InMemory(cpu) ==> InMemory(c) && c.addressCounter == (cpu.addressCounter + 1) % |cpu.memory|
  {
    var ac := cpu.addressCounter;
    cpu.(addressCounter := if ac == |cpu.memory| - 1 then 0 else ac + 1, programCounter := cpu.programCounter + 1)
  }

  /** `MoveLeft`: one cell to the left, from the first cell round to the
      last. */
  function MovedLeft(cpu: Cpu): (c: Cpu)
    ensures c == cpu.(addressCounter := c.addressCounter, programCounter := cpu.programCounter + 1)
    ensures InMemory(cpu) ==> InMemory(c) && c.addressCounter == (cpu.addressCounter - 1) % |cpu.memory|
  {
    var ac := cpu.addressCounter;
    cpu.(addressCounter := if ac == 0 then |cpu.memory| - 1 else ac - 1, programCounter := cpu.programCounter + 1)
  }

  /** `Increment` (`delta` 1) and `Decrement` (`delta` -1): the current
      cell changes as a Go `uint8` does, and no other cell changes. */
  function Added(cpu: Cpu, delta: int): (c: Cpu)
    requires InMemory(cpu)
    ensures c == cpu.(memory := c.memory, programCounter := cpu.programCounter + 1)
    ensures |c.memory| == |cpu.memory|
    ensures forall a :: 0 <= a < |cpu.memory| && a != cpu.addressCounter ==> c.memory[a] == cpu.memory[a]
    ensures c.memory[cpu.addressCounter] == (cpu.memory[cpu.addressCounter] as int + delta) % 0x100
  {
    var ac := cpu.addressCounter;
    cpu.(memory := cpu.memory[ac := (cpu.memory[ac] as int + delta) % 0x100], programCounter := cpu.programCounter + 1)
  }

  /** `Write`: one call of the writer, which receives exactly one byte,
      the current cell; a failing call is a panic. */
  function Written(cpu: Cpu): (r: Result<Cpu, Fault>)
    requires InMemory(cpu)
    ensures r.Err? <==> NextWrite(cpu) == WriteFailed
    ensures r.Ok? ==> r.value == cpu.(output := r.value.output, writes := r.value.writes, programCounter := cpu.programCounter + 1)
    ensures r.Ok? ==> |r.value.output| == |cpu.output| + 1 && r.value.output[..|cpu.output|] == cpu.output
    ensures r.Ok? ==> r.value.output[|cpu.output|] == cpu.memory[cpu.addressCounter]
    ensures r.Ok? ==> |r.value.writes| == if |cpu.writes| == 0 then 0 else |cpu.writes| - 1
    ensures r.Ok? ==> r.value.writes == cpu.writes[|cpu.writes| - |r.value.writes|..]
  {
    if NextWrite(cpu) == WriteFailed then Err(IoError)
    else
      Ok(cpu.(output := cpu.output + [cpu.memory[cpu.addressCounter]],
              writes := if |cpu.writes| == 0 then [] else cpu.writes[1..],
              programCounter := cpu.programCounter + 1))
  }

  /** `Read`: one call of the reader. An error is a panic, a byte read
      lands in the current cell, and a call that reads nothing changes no
      cell. */
  function ReadInto(cpu: Cpu): (r: Result<Cpu, Fault>)
    ensures r == Err(IoError) <==> NextRead(cpu) == ReadFailed
    ensures r == Err(IndexOutOfRange) <==> NextRead(cpu).ByteRead? && !InMemory(cpu)
    ensures r.Ok? ==> |cpu.input| > 0 && r.value == cpu.(input := cpu.input[1..], memory := r.value.memory, programCounter := cpu.programCounter + 1)
    ensures r.Ok? && NextRead(cpu).ByteRead? ==> r.value.memory == cpu.memory[cpu.addressCounter := NextRead(cpu).b]
    ensures r.Ok? && NextRead(cpu) == NothingRead ==> r.value.memory == cpu.memory
  {
    match NextRead(cpu)
    case ReadFailed => Err(IoError)
    case NothingRead => Ok(cpu.(input := cpu.input[1..], programCounter := cpu.programCounter + 1))
    case ByteRead(b) =>
      if !InMemory(cpu) then Err(IndexOutOfRange)
      else Ok(cpu.(input := cpu.input[1..], memory := cpu.memory[cpu.addressCounter := b], programCounter := cpu.programCounter + 1))
  }

  /** `JumpIfZero` and `JumpUnlessZero`: a taken jump continues at the
      operand, one that is not taken at the next instruction. */
  function Jumped(cpu: Cpu, instruction: Instruction): (c: Cpu)
    requires InMemory(cpu) && IsJump(instruction)
    ensures c == cpu.(programCounter := c.programCounter)
    ensures c.programCounter == if Taken(cpu, instruction) then instruction.value else cpu.programCounter + 1
  {
    var cell := cpu.memory[cpu.addressCounter];
    var jump := if instruction.name == JumpIfZero then cell == 0 else cell != 0;
    // Go sets the counter to the operand minus one and then increments it.
    cpu.(programCounter := if jump then instruction.value - 1 + 1 else cpu.programCounter + 1)
  }

  /** `Cpu.Execute`. Only the jumps look at the operand; every instruction
      that indexes the current cell panics when the address counter is
      outside memory, and the two I/O instructions panic on an I/O error. */
  function Execute(cpu: Cpu, instruction: Instruction): (r: Result<Cpu, Fault>)
    // the panics
    ensures r == Err(IoError) <==>
      || (instruction.name == Write && InMemory(cpu) && NextWrite(cpu) == WriteFailed)
      || (instruction.name == Read && NextRead(cpu) == ReadFailed)
    ensures r == Err(IndexOutOfRange) <==>
      !InMemory(cpu) && (TouchesCell(instruction.name) || (instruction.name == Read && NextRead(cpu).ByteRead?))
    // what no instruction changes
    ensures r.Ok? ==> r.value.code == cpu.code && |r.value.memory| == |cpu.memory|
    ensures r.Ok? && InMemory(cpu) ==> InMemory(r.value)
    // what each instruction leaves alone
    ensures r.Ok? && !IsJump(instruction) ==> r.value.programCounter == cpu.programCounter + 1
    ensures r.Ok? && instruction.name != MoveRight && instruction.name != MoveLeft ==> r.value.addressCounter == cpu.addressCounter
    ensures r.Ok? && instruction.name != Increment && instruction.name != Decrement && instruction.name != Read ==> r.value.memory == cpu.memory
    ensures r.Ok? && instruction.name != Write ==> r.value.output == cpu.output && r.value.writes == cpu.writes
    ensures r.Ok? && instruction.name != Read ==> r.value.input == cpu.input
  {
    match instruction.name
    case MoveRight => Ok(MovedRight(cpu))
    case MoveLeft => Ok(MovedLeft(cpu))
    case Increment => if InMemory(cpu) then Ok(Added(cpu, 1)) else Err(IndexOutOfRange)
    case Decrement => if InMemory(cpu) then Ok(Added(cpu, -1)) else Err(IndexOutOfRange)
    case Write => if InMemory(cpu) then Written(cpu) else Err(IndexOutOfRange)
    case Read => ReadInto(cpu)
    case JumpIfZero => if InMemory(cpu) then Ok(Jumped(cpu, instruction)) else Err(IndexOutOfRange)
    case JumpUnlessZero => if InMemory(cpu) then Ok(Jumped(cpu, instruction)) else Err(IndexOutOfRange)
    case _ => Ok(cpu.(programCounter := cpu.programCounter + 1))
  }

  /** `Cpu.HasInstructionsLeft`. */
  predicate HasInstructionsLeft(cpu: Cpu)
  {
    cpu.programCounter < |cpu.code|
  }

  /** `Cpu.Step`: execute the instruction under the program counter; a
      program counter outside the program is an index panic. */
  function Step(cpu: Cpu): (r: Result<Cpu, Fault>)
    ensures r.Ok? ==> HasInstructionsLeft(cpu) && 0 <= cpu.programCounter
    ensures !HasInstructionsLeft(cpu) ==> r == Err(IndexOutOfRange)
    ensures r.Ok? ==> r.value.code == cpu.code
  {
    if 0 <= cpu.programCounter < |cpu.code| then Execute(cpu, cpu.code[cpu.programCounter])
    else Err(IndexOutOfRange)
  }

  /** `n` consecutive steps, stopping at the first panic. */
  function Steps(cpu: Cpu, n: nat): Result<Cpu, Fault>
    decreases n
  {
    if n == 0 then Ok(cpu)
    else match Step(cpu)
      case Err(f) => Err(f)
      case Ok(c) => Steps(c, n - 1)
  }

  /** The same instruction executed `n` times. */
  function Repeat(cpu: Cpu, instruction: Instruction, n: nat): Result<Cpu, Fault>
    decreases n
  {
    if n == 0 then Ok(cpu)
    else match Execute(cpu, instruction)
      case Err(f) => Err(f)
      case Ok(c) => Repeat(c, instruction, n - 1)
  }

  /** Execution ignores the operand of every instruction but the jumps: the
      interpreter has no notion of a run length. */
  lemma OperandIgnored(cpu: Cpu, op: Opcode, v: int, w: int)
    requires op != JumpIfZero && op != JumpUnlessZero
    ensures Execute(cpu, Instruction(op, v)) == Execute(cpu, Instruction(op, w))
  {
  }

  /** `MoveLeft` undoes `MoveRight` and vice versa. */
  lemma MovesAreInverse(cpu: Cpu, v: int)
    requires InMemory(cpu)
    ensures Execute(cpu, Instruction(MoveRight, v)).Ok?
    ensures var c := Execute(cpu, Instruction(MoveRight, v)).value;
      && Execute(c, Instruction(MoveLeft, v)).Ok?
      && Execute(c, Instruction(MoveLeft, v)).value == cpu.(programCounter := cpu.programCounter + 2)
    ensures Execute(cpu, Instruction(MoveLeft, v)).Ok?
    ensures var c := Execute(cpu, Instruction(MoveLeft, v)).value;
      && Execute(c, Instruction(MoveRight, v)).Ok?
      && Execute(c, Instruction(MoveRight, v)).value == cpu.(programCounter := cpu.programCounter + 2)
  {
  }

  /** `Decrement` undoes `Increment` and vice versa. */
  lemma ArithmeticIsInverse(cpu: Cpu, v: int)
    requires InMemory(cpu)
    ensures Execute(cpu, Instruction(Increment, v)).Ok?
    ensures var c := Execute(cpu, Instruction(Increment, v)).value;
      && Execute(c, Instruction(Decrement, v)).Ok?
      && Execute(c, Instruction(Decrement, v)).value == cpu.(programCounter := cpu.programCounter + 2)
    ensures Execute(cpu, Instruction(Decrement, v)).Ok?
    ensures var c := Execute(cpu, Instruction(Decrement, v)).value;
      && Execute(c, Instruction(Increment, v)).Ok?
      && Execute(c, Instruction(Increment, v)).value == cpu.(programCounter := cpu.programCounter + 2)
  {
    var a := cpu.addressCounter;
    var c := Execute(cpu, Instruction(Increment, v)).value;
    assert Execute(c, Instruction(Decrement, v)).value.memory == cpu.memory;
    var d := Execute(cpu, Instruction(Decrement, v)).value;
    assert Execute(d, Instruction(Increment, v)).value.memory == cpu.memory;
  }

  /** The first of `n` moves to the right, and where the remaining `n - 1`
      must take the address counter. */
  lemma MoveRightUnfold(cpu: Cpu, v: int, n: nat)
    requires InMemory(cpu) && n > 0
    ensures var c := MovedRight(cpu);
            && Repeat(cpu, Instruction(MoveRight, v), n) == Repeat(c, Instruction(MoveRight, v), n - 1)
            && (c.addressCounter + (n - 1)) % |cpu.memory| == (cpu.addressCounter + n) % |cpu.memory|
  {
    var len, a := |cpu.memory|, cpu.addressCounter;
    assert Execute(cpu, Instruction(MoveRight, v)) == Ok(MovedRight(cpu));
    if a == len - 1 {
      ModSum(len, n - 1, len);
    }
  }

  /** `n` moves to the right advance the address counter by `n` around the
      ring of cells. */
  lemma {:induction false} MovesRightWrap(cpu: Cpu, v: int, n: nat)
    requires InMemory(cpu)
    ensures Repeat(cpu, Instruction(MoveRight, v), n) ==
      Ok(cpu.(addressCounter := (cpu.addressCounter + n) % |cpu.memory|, programCounter := cpu.programCounter + n))
    decreases n
  {
    if n == 0 {
      Split(cpu.addressCounter, 0, cpu.addressCounter, |cpu.memory|);
    } else {
      var c := MovedRight(cpu);
      MoveRightUnfold(cpu, v, n);
      MovesRightWrap(c, v, n - 1);
      assert c.memory == cpu.memory && c.programCounter + (n - 1) == cpu.programCounter + n;
    }
  }

  /** The first of `n` moves to the left, and where the remaining `n - 1`
      must take the address counter. */
  lemma MoveLeftUnfold(cpu: Cpu, v: int, n: nat)
    requires InMemory(cpu) && n > 0
    ensures var c := MovedLeft(cpu);
            && Repeat(cpu, Instruction(MoveLeft, v), n) == Repeat(c, Instruction(MoveLeft, v), n - 1)
            && (c.addressCounter - (n - 1)) % |cpu.memory| == (cpu.addressCounter - n) % |cpu.memory|
  {
    var len, a := |cpu.memory|, cpu.addressCounter;
    assert Execute(cpu, Instruction(MoveLeft, v)) == Ok(MovedLeft(cpu));
    if a == 0 {
      ModSum(len, -(n as int), len);
    }
  }

  /** `n` moves to the left take the address counter back by `n` around
      the ring of cells. */
  lemma {:induction false} MovesLeftWrap(cpu: Cpu, v: int, n: nat)
    requires InMemory(cpu)
    ensures Repeat(cpu, Instruction(MoveLeft, v), n) ==
      Ok(cpu.(addressCounter := (cpu.addressCounter - n) % |cpu.memory|, programCounter := cpu.programCounter + n))
    decreases n
  {
    if n == 0 {
      Split(cpu.addressCounter, 0, cpu.addressCounter, |cpu.memory|);
    } else {
      var c := MovedLeft(cpu);
      MoveLeftUnfold(cpu, v, n);
      MovesLeftWrap(c, v, n - 1);
      assert c.memory == cpu.memory && c.programCounter + (n - 1) == cpu.programCounter + n;
    }
  }

  /** The first of `n` increments, and the value the remaining `n - 1`
      must leave in the current cell. */
  lemma IncrementUnfold(cpu: Cpu, v: int, n: nat)
    requires InMemory(cpu) && n > 0
    ensures var c := Added(cpu, 1);
            && Repeat(cpu, Instruction(Increment, v), n) == Repeat(c, Instruction(Increment, v), n - 1)
            && (c.memory[cpu.addressCounter] as int + (n - 1)) % 0x100
               == (cpu.memory[cpu.addressCounter] as int + n) % 0x100
  {
    assert Execute(cpu, Instruction(Increment, v)) == Ok(Added(cpu, 1));
    ModSum(cpu.memory[cpu.addressCounter] as int + 1, n - 1, 0x100);
  }

  /** The first of `n` decrements, and the value the remaining `n - 1`
      must leave in the current cell. */
  lemma DecrementUnfold(cpu: Cpu, v: int, n: nat)
    requires InMemory(cpu) && n > 0
    ensures var c := Added(cpu, -1);
            && Repeat(cpu, Instruction(Decrement, v), n) == Repeat(c, Instruction(Decrement, v), n - 1)
            && (c.memory[cpu.addressCounter] as int - (n - 1)) % 0x100
               == (cpu.memory[cpu.addressCounter] as int - n) % 0x100
  {
    assert Execute(cpu, Instruction(Decrement, v)) == Ok(Added(cpu, -1));
    ModSum(cpu.memory[cpu.addressCounter] as int - 1, -(n - 1), 0x100);
  }

  /** `n` increments add `n` to the current cell modulo 256 and change
      nothing else but the program counter. */
  lemma {:induction false} IncrementsWrap(cpu: Cpu, v: int, n: nat)
    requires InMemory(cpu)
    ensures Repeat(cpu, Instruction(Increment, v), n) ==
      Ok(cpu.(memory := cpu.memory[cpu.addressCounter := (cpu.memory[cpu.addressCounter] as int + n) % 0x100],
              programCounter := cpu.programCounter + n))
    decreases n
  {
    var a := cpu.addressCounter;
    if n == 0 {
      assert cpu.memory[a := (cpu.memory[a] as int + n) % 0x100] == cpu.memory;
    } else {
      var c := Added(cpu, 1);
      IncrementUnfold(cpu, v, n);
      IncrementsWrap(c, v, n - 1);
      var x := (cpu.memory[a] as int + n) % 0x100;
      assert (c.memory[a] as int + (n - 1)) % 0x100 == x;
      assert c.memory[a := x] == cpu.memory[a := x];
    }
  }

  /** `n` decrements subtract `n` from the current cell modulo 256 and
      change nothing else but the program counter. */
  lemma {:induction false} DecrementsWrap(cpu: Cpu, v: int, n: nat)
    requires InMemory(cpu)
    ensures Repeat(cpu, Instruction(Decrement, v), n) ==
      Ok(cpu.(memory := cpu.memory[cpu.addressCounter := (cpu.memory[cpu.addressCounter] as int - n) % 0x100],
              programCounter := cpu.programCounter + n))
    decreases n
  {
    var a := cpu.addressCounter;
    if n == 0 {
      assert cpu.memory[a := (cpu.memory[a] as int - n) % 0x100] == cpu.memory;
    } else {
      var c := Added(cpu, -1);
      DecrementUnfold(cpu, v, n);
      DecrementsWrap(c, v, n - 1);
      var x := (cpu.memory[a] as int - n) % 0x100;
      assert (c.memory[a] as int - (n - 1)) % 0x100 == x;
      assert c.memory[a := x] == cpu.memory[a := x];
    }
  }

  /** A program of moves and cell arithmetic, started anywhere inside it
      with the address counter in memory, runs to its end without a panic:
      `HasInstructionsLeft` holds before each of its steps and fails after
      the last. */
  predicate StraightLine(code: seq<Instruction>)
  {
    forall k :: 0 <= k < |code| ==> CanBeOptimized(code[k])
  }

  lemma {:induction false} StraightLineRuns(cpu: Cpu)
    requires StraightLine(cpu.code) && InMemory(cpu)
    requires 0 <= cpu.programCounter <= |cpu.code|
    ensures forall n: nat :: n < |cpu.code| - cpu.programCounter ==>
      Steps(cpu, n).Ok? && HasInstructionsLeft(Steps(cpu, n).value)
    ensures Steps(cpu, |cpu.code| - cpu.programCounter).Ok?
    ensures !HasInstructionsLeft(Steps(cpu, |cpu.code| - cpu.programCounter).value)
    decreases |cpu.code| - cpu.programCounter
  {
    if cpu.programCounter < |cpu.code| {
      var c := Step(cpu).value;
      assert c.programCounter == cpu.programCounter + 1;
      StraightLineRuns(c);
      forall n: nat | n < |cpu.code| - cpu.programCounter
        ensures Steps(cpu, n).Ok? && HasInstructionsLeft(Steps(cpu, n).value)
      {
        if n > 0 {
          assert Steps(cpu, n) == Steps(c, n - 1);
        }
      }
    }
  }
}
