/**
 * The instruction set shared by the parser, the optimizer, the JIT compiler
 * and the reference interpreter (instructions/instruction.go).
 */
module Instructions {
  import opened Wrappers

  /** The opcodes, in the order of the Go `iota` enumeration. `Clear` is
      declared for a clear-loop optimisation that no code produces. */
  datatype Opcode =
    | Unknown
    | MoveRight
    | MoveLeft
    | Increment
    | Decrement
    | Write
    | Read
    | JumpIfZero
    | JumpUnlessZero
    | Clear

  /** One instruction: an opcode and a single integer operand. The operand is
      a run length for moves and cell arithmetic, and the index of the
      partner bracket for the two jumps. */
  datatype Instruction = Instruction(name: Opcode, value: int)

  /** The numeric value the Go enumeration gives each opcode. */
  function Ordinal(op: Opcode): nat
  {
    match op
    case Unknown => 0
    case MoveRight => 1
    case MoveLeft => 2
    case Increment => 3
    case Decrement => 4
    case Write => 5
    case Read => 6
    case JumpIfZero => 7
    case JumpUnlessZero => 8
    case Clear => 9
  }

  /** The opcode a raw `InstructionType` number denotes, if any. */
  function OpcodeOf(n: nat): (r: Option<Opcode>)
    ensures r.Some? <==> n <= 9
    ensures r.Some? ==> Ordinal(r.value) == n
    ensures forall op :: Ordinal(op) == n ==> r == Some(op)
  {
    if n == 0 then Some(Unknown)
    else if n == 1 then Some(MoveRight)
    else if n == 2 then Some(MoveLeft)
    else if n == 3 then Some(Increment)
    else if n == 4 then Some(Decrement)
    else if n == 5 then Some(Write)
    else if n == 6 then Some(Read)
    else if n == 7 then Some(JumpIfZero)
    else if n == 8 then Some(JumpUnlessZero)
    else if n == 9 then Some(Clear)
    else None
  }

  /** The display name of a declared opcode. */
  function Name(op: Opcode): string
  {
    match op
    case Unknown => "Unknown"
    case MoveRight => "MoveRight"
    case MoveLeft => "MoveLeft"
    case Increment => "Increment"
    case Decrement => "Decrement"
    case Write => "Write"
    case Read => "Read"
    case JumpIfZero => "JumpIfZero"
    case JumpUnlessZero => "JumpUnlessZero"
    case Clear => "Clear"
  }

  /** `InstructionType.ToString` on a raw enumeration value: every declared
      opcode gets a name of its own, every other number reads "Unknown". */
  function ToString(t: nat): (s: string)
    ensures s == "Unknown" <==> t == 0 || t > 9
    ensures forall u: nat :: u <= 9 && t <= 9 && u != t ==> Name(OpcodeOf(u).value) != s
  {
    match OpcodeOf(t)
    case Some(op) => Name(op)
    case None => "Unknown"
  }

  /** The two bracket opcodes. */
  predicate IsJump(i: Instruction)
    ensures IsJump(i) <==> 7 <= Ordinal(i.name) <= 8
  {
    i.name == JumpIfZero || i.name == JumpUnlessZero
  }

  /** The opcodes whose runs the optimizer folds into one instruction. */
  predicate CanBeOptimized(i: Instruction)
    ensures CanBeOptimized(i) <==> 1 <= Ordinal(i.name) <= 4
  {
    i.name == MoveRight || i.name == MoveLeft || i.name == Increment || i.name == Decrement
  }

  /** No instruction is both a jump and foldable. */
  lemma JumpsAreNotOptimizable(i: Instruction)
    ensures !(IsJump(i) && CanBeOptimized(i))
  {
  }

  /** The bracket-pairing invariant: every `JumpIfZero` points at a later
      `JumpUnlessZero` that points back at it, and every `JumpUnlessZero`
      points at an earlier `JumpIfZero` that points back at it. */
  ghost predicate Paired(prog: seq<Instruction>)
  {
    forall i :: 0 <= i < |prog| ==> PairedAt(prog, i)
  }

  ghost predicate PairedAt(prog: seq<Instruction>, i: int)
    requires 0 <= i < |prog|
  {
    && (prog[i].name == JumpIfZero ==>
          var j := prog[i].value;
          i < j < |prog| && prog[j].name == JumpUnlessZero && prog[j].value == i)
    && (prog[i].name == JumpUnlessZero ==>
          var j := prog[i].value;
          0 <= j < i && prog[j].name == JumpIfZero && prog[j].value == i)
  }

  /** Bracket pairs do not cross: a `JumpIfZero` opened inside another
      bracket pair is closed inside it too. */
  ghost predicate Nested(prog: seq<Instruction>)
    requires Paired(prog)
  {
    forall i, k :: 0 <= i < k < |prog| && prog[i].name == JumpIfZero && prog[k].name == JumpIfZero && k < prog[i].value ==>
      prog[k].value < prog[i].value
  }

  /** The opcodes of a stream, in order. */
  function Names(prog: seq<Instruction>): (r: seq<Opcode>)
    ensures |r| == |prog|
    ensures forall i :: 0 <= i < |prog| ==> r[i] == prog[i].name
  {
    seq(|prog|, i requires 0 <= i < |prog| => prog[i].name)
  }
}
