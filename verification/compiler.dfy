/**
 * The JIT compiler of jit/jit.go and jit/compiler_darwin_arm64.go: a fixed
 * prologue, one block of AArch64 code per instruction, a fixed epilogue,
 * and a second pass that links every jump block to the block its operand
 * names and patches a CBZ/CBNZ into the jump block's placeholder.
 *
 * The compiler keeps x9 as the address counter, x11 as scratch and x15 as
 * the pointer to program memory. A Go runtime panic (an index out of range)
 * is an error value here. The source returns early on an error and leaves
 * the partly written state behind; the model returns the error alone.
 */
module Compiler {
  import opened Wrappers
  import opened Instructions
  import opened Integers
  import opened Arm64

  /** One compiled instruction: where its code starts, and for a jump the
      index of the block it was linked to (the Go pointer into the block
      slice). */
  datatype CodeBlock = CodeBlock(instruction: Instruction, offset: int, link: Option<nat>)

  datatype Jit = Jit(memorySize: nat, code: seq<byte>, codeBlocks: seq<CodeBlock>)

  /** `NewJit`: no code and no blocks yet. */
  function NewJit(memorySize: nat): Jit
  {
    Jit(memorySize, [], [])
  }

  /** `GeneratedCode`: the machine code the entry point dumps. */
  function GeneratedCode(j: Jit): seq<byte>
  {
    j.code
  }

  datatype CompileError =
    | Encode(error: EncodeError)
      /** The panic of line 158: a jump operand that is not a block index. */
    | LinkOutOfRange
      /** "failed to link code block", line 168. */
    | LinkMissing
      /** The panic of line 186: a placeholder outside the code. */
    | PatchOutOfRange

  // ----- Fixed code -----

  /** mov x9, #0; mov x10, #0; mov x11, #0; mov x15, x0 */
  const Prologue: seq<byte> :=
    [0x09, 0x00, 0x80, 0xd2, 0x0a, 0x00, 0x80, 0xd2, 0x0b, 0x00, 0x80, 0xd2, 0xef, 0x03, 0x00, 0xaa]

  /** mov x0, x15; ret */
  const Epilogue: seq<byte> := [0xe0, 0x03, 0x0f, 0xaa, 0xc0, 0x03, 0x5f, 0xd6]

  /** ldrb w11, [x15, x9] */
  const LoadCell: seq<byte> := [0xeb, 0x69, 0x69, 0x38]

  /** strb w11, [x15, x9] */
  const StoreCell: seq<byte> := [0xeb, 0x69, 0x29, 0x38]

  /** mov x0, #1; mov x1, x15; add x1, x1, x9; mov x2, #1; mov x16, #4; svc #0x80 */
  const WriteCall: seq<byte> :=
    [0x20, 0x00, 0x80, 0xd2, 0xe1, 0x03, 0x0f, 0xaa, 0x21, 0x00, 0x09, 0x8b,
     0x22, 0x00, 0x80, 0xd2, 0x90, 0x00, 0x80, 0xd2, 0x01, 0x10, 0x00, 0xd4]

  /** mov x0, #0; mov x1, x15; add x1, x1, x9; mov x2, #1; mov x16, #3; svc #0x80 */
  const ReadCall: seq<byte> :=
    [0x00, 0x00, 0x80, 0xd2, 0xe1, 0x03, 0x0f, 0xaa, 0x21, 0x00, 0x09, 0x8b,
     0x22, 0x00, 0x80, 0xd2, 0x70, 0x00, 0x80, 0xd2, 0x01, 0x10, 0x00, 0xd4]

  /** The four bytes a jump block reserves for its branch. */
  const Placeholder: seq<byte> := [0x00, 0x00, 0x00, 0x00]

  /** Bytes of code each opcode compiles to. */
  function Size(op: Opcode): nat
  {
    match op
    case MoveRight => 4
    case MoveLeft => 4
    case Increment => 12
    case Decrement => 12
    case Write => 24
    case Read => 24
    case JumpIfZero => 8
    case JumpUnlessZero => 8
    case Clear => 0
    case Unknown => 0
  }

  // ----- First pass: one block per instruction -----

  /** The bytes the switch of lines 43-132 appends for one instruction:
      the address counter moved by the operand, the current cell loaded,
      changed by the operand and stored back, a write or read system call
      on the current cell, or a load followed by the branch placeholder.
      Only an operand that does not fit a 12-bit immediate is refused. */
  function Emission(i: Instruction): (r: Result<seq<byte>, EncodeError>)
    ensures r.Err? <==> CanBeOptimized(i) && (i.value < 0 || i.value >= 0x1000)
    ensures r.Err? ==> r.error == ImmediateOutOfRange
    ensures r.Ok? ==> |r.value| == Size(i.name)
    ensures r.Ok? && i.name in {MoveRight, MoveLeft} ==>
              DecodeAddSubImmediate(FromLittleEndian(r.value))
              == Some(AddSubImmediate(true, i.name == MoveLeft, false, false, i.value, 9, 9))
    ensures r.Ok? && i.name in {Increment, Decrement} ==>
              && r.value[..4] == LoadCell && r.value[8..] == StoreCell
              && DecodeAddSubImmediate(FromLittleEndian(r.value[4..8]))
                 == Some(AddSubImmediate(true, i.name == Decrement, false, false, i.value, 11, 11))
    ensures r.Ok? && IsJump(i) ==> r.value == LoadCell + Placeholder
  {
    match i.name
    case MoveRight => AppendMath([], Add, 9, i.value)
    case MoveLeft => AppendMath([], Sub, 9, i.value)
    case Increment =>
      var c :- AppendMath(LoadCell, Add, 11, i.value);
      assert c[..4] == LoadCell;
      Ok(c + StoreCell)
    case Decrement =>
      var c :- AppendMath(LoadCell, Sub, 11, i.value);
      assert c[..4] == LoadCell;
      Ok(c + StoreCell)
    case Write => Ok(WriteCall)
    case Read => Ok(ReadCall)
    case JumpIfZero => Ok(LoadCell + Placeholder)
    case JumpUnlessZero => Ok(LoadCell + Placeholder)
    case Clear => Ok([])
    case Unknown => Ok([])
  }

  /** Where each block starts when the first one starts at `base`; the
      last entry is where the code after the blocks starts. */
  function Layout(base: int, prog: seq<Instruction>): (o: seq<int>)
    ensures |o| == |prog| + 1 && o[0] == base
  {
    if prog == [] then [base]
    else
      var o := Layout(base, prog[..|prog| - 1]);
      o + [o[|prog| - 1] + Size(prog[|prog| - 1].name)]
  }

  predicate BadImmediate(prog: seq<Instruction>)
  {
    exists k :: 0 <= k < |prog| && Emission(prog[k]).Err?
  }

  /** `code` extends `start` by the blocks of `prog`, laid out one after
      another, and `blocks` records where each begins. */
  predicate Emitted(start: seq<byte>, prog: seq<Instruction>, code: seq<byte>, blocks: seq<CodeBlock>)
  {
    && !BadImmediate(prog)
    && |code| == Layout(|start|, prog)[|prog|] && |start| <= |code| && code[..|start|] == start
    && BlocksAt(Layout(|start|, prog), prog, blocks)
    && CodeAt(Layout(|start|, prog), prog, code)
  }

  predicate BlocksAt(o: seq<int>, prog: seq<Instruction>, blocks: seq<CodeBlock>)
    requires |o| == |prog| + 1
  {
    |blocks| == |prog| && forall k :: 0 <= k < |prog| ==> blocks[k] == CodeBlock(prog[k], o[k], None)
  }

  predicate CodeAt(o: seq<int>, prog: seq<Instruction>, code: seq<byte>)
    requires |o| == |prog| + 1
  {
    && !BadImmediate(prog)
    && forall k :: 0 <= k < |prog| ==> BlockCode(o, prog, code, k)
  }

  /** Block `k`'s bytes lie at `o[k] .. o[k + 1]` of `code`. */
  predicate BlockCode(o: seq<int>, prog: seq<Instruction>, code: seq<byte>, k: int)
    requires |o| == |prog| + 1 && 0 <= k < |prog| && Emission(prog[k]).Ok?
  {
    0 <= o[k] <= o[k + 1] <= |code| && code[o[k]..o[k + 1]] == Emission(prog[k]).value
  }

  lemma SliceOfAppend<T>(a: seq<T>, b: seq<T>, i: int, j: int)
    requires 0 <= i <= j <= |a|
    ensures (a + b)[i..j] == a[i..j]
  {
  }

  lemma LayoutStep(base: int, prog: seq<Instruction>)
    requires prog != []
    ensures var n := |prog| - 1;
            Layout(base, prog) == Layout(base, prog[..n]) + [Layout(base, prog[..n])[n] + Size(prog[n].name)]
  {
  }

  lemma GoodStep(prog: seq<Instruction>)
    requires prog != [] && Emission(prog[|prog| - 1]).Ok? && !BadImmediate(prog[..|prog| - 1])
    ensures !BadImmediate(prog)
  {
    forall k | 0 <= k < |prog|
      ensures Emission(prog[k]).Ok?
    {
      if k < |prog| - 1 {
        assert prog[k] == prog[..|prog| - 1][k];
      }
    }
  }

  lemma BlocksStep(o: seq<int>, prog: seq<Instruction>, blocks: seq<CodeBlock>)
    requires prog != [] && |o| == |prog| + 1
    requires BlocksAt(o[..|prog|], prog[..|prog| - 1], blocks)
    ensures BlocksAt(o, prog, blocks + [CodeBlock(prog[|prog| - 1], o[|prog| - 1], None)])
  {
    var n := |prog| - 1;
    forall k | 0 <= k < n
      ensures (blocks + [CodeBlock(prog[n], o[n], None)])[k] == CodeBlock(prog[k], o[k], None)
    {
      assert prog[k] == prog[..n][k];
      assert o[k] == o[..|prog|][k];
    }
  }

  lemma CodeStep(o: seq<int>, prog: seq<Instruction>, code: seq<byte>)
    requires prog != [] && |o| == |prog| + 1 && Emission(prog[|prog| - 1]).Ok?
    requires CodeAt(o[..|prog|], prog[..|prog| - 1], code)
    requires o[|prog| - 1] == |code| && o[|prog|] == |code| + Size(prog[|prog| - 1].name)
    ensures CodeAt(o, prog, code + Emission(prog[|prog| - 1]).value)
  {
    var n, e := |prog| - 1, Emission(prog[|prog| - 1]).value;
    GoodStep(prog);
    forall k | 0 <= k < n
      ensures BlockCode(o, prog, code + e, k)
    {
      assert prog[k] == prog[..n][k];
      assert o[k] == o[..|prog|][k] && o[k + 1] == o[..|prog|][k + 1];
      assert BlockCode(o[..|prog|], prog[..n], code, k);
      SliceOfAppend(code, e, o[k], o[k + 1]);
    }
    assert (code + e)[o[n]..o[n + 1]] == e;
    assert BlockCode(o, prog, code + e, n);
  }

  lemma EmitStep(start: seq<byte>, prog: seq<Instruction>, code: seq<byte>, blocks: seq<CodeBlock>)
    requires prog != [] && Emission(prog[|prog| - 1]).Ok?
    requires Emitted(start, prog[..|prog| - 1], code, blocks)
    ensures Emitted(start, prog, code + Emission(prog[|prog| - 1]).value,
                    blocks + [CodeBlock(prog[|prog| - 1], |code|, None)])
  {
    var n, e := |prog| - 1, Emission(prog[|prog| - 1]).value;
    var o := Layout(|start|, prog);
    LayoutStep(|start|, prog);
    assert o[..|prog|] == Layout(|start|, prog[..n]);
    GoodStep(prog);
    SliceOfAppend(code, e, 0, |start|);
    BlocksStep(o, prog, blocks);
    CodeStep(o, prog, code);
  }

  /** The loop of lines 37-135: each instruction's block records the code
      length before its bytes are appended, and the first instruction whose
      operand cannot be encoded stops the pass. */
  function EmitAll(start: seq<byte>, prog: seq<Instruction>)
    : (r: Result<(seq<byte>, seq<CodeBlock>), EncodeError>)
    ensures r.Err? <==> BadImmediate(prog)
    ensures r.Err? ==> r.error == ImmediateOutOfRange
    ensures r.Ok? ==> Emitted(start, prog, r.value.0, r.value.1)
  {
    if prog == [] then Ok((start, []))
    else
      var front := prog[..|prog| - 1];
      var rest := EmitAll(start, front);
      if rest.Err? then
        assert BadImmediate(prog) by {
          var k :| 0 <= k < |front| && Emission(front[k]).Err?;
          assert prog[k] == front[k];
        }
        rest
      else
        var (code, blocks) := rest.value;
        var e := Emission(prog[|prog| - 1]);
        if e.Err? then Err(e.error)
        else
          EmitStep(start, prog, code, blocks);
          Ok((code + e.value, blocks + [CodeBlock(prog[|prog| - 1], |code|, None)]))
  }

  // ----- Second pass: link and patch the jumps -----

  predicate LinkInRange(blocks: seq<CodeBlock>, i: int)
    requires 0 <= i < |blocks|
  {
    IsJump(blocks[i].instruction) ==> 0 <= blocks[i].instruction.value < |blocks|
  }

  /** Every jump block among the first `n` links to the block its operand
      names; nothing else about the blocks changes. */
  predicate LinkedUpTo(blocks: seq<CodeBlock>, linked: seq<CodeBlock>, n: int)
  {
    && |linked| == |blocks|
    && forall i :: 0 <= i < |blocks| ==>
         && linked[i].instruction == blocks[i].instruction && linked[i].offset == blocks[i].offset
         && (if i < n && IsJump(blocks[i].instruction)
             then 0 <= blocks[i].instruction.value < |blocks| && linked[i].link == Some(blocks[i].instruction.value as nat)
             else linked[i].link == blocks[i].link)
  }

  /** The first loop of `postProcessJumps`, lines 153-159, over the first
      `n` blocks: taking the address of a block whose index is outside the
      slice panics. */
  function LinkPrefix(blocks: seq<CodeBlock>, n: nat): (r: Result<seq<CodeBlock>, CompileError>)
    requires n <= |blocks|
    ensures r.Err? <==> exists i :: 0 <= i < n && !LinkInRange(blocks, i)
    ensures r.Err? ==> r.error == LinkOutOfRange
    ensures r.Ok? ==> LinkedUpTo(blocks, r.value, n)
  {
    if n == 0 then Ok(blocks)
    else
      var linked :- LinkPrefix(blocks, n - 1);
      var b := blocks[n - 1];
      if !IsJump(b.instruction) then Ok(linked)
      else if 0 <= b.instruction.value < |blocks| then
        Ok(linked[n - 1 := b.(link := Some(b.instruction.value as nat))])
      else
        assert !LinkInRange(blocks, n - 1);
        Err(LinkOutOfRange)
  }

  function LinkBlocks(blocks: seq<CodeBlock>): (r: Result<seq<CodeBlock>, CompileError>)
    ensures r.Err? <==> exists i :: 0 <= i < |blocks| && !LinkInRange(blocks, i)
    ensures r.Err? ==> r.error == LinkOutOfRange
    ensures r.Ok? ==> LinkedUpTo(blocks, r.value, |blocks|)
  {
    LinkPrefix(blocks, |blocks|)
  }

  /** `binary.LittleEndian.PutUint32(code[at:], w)`: the four bytes at `at`
      become the word and no other byte changes; a slice that starts
      outside the code, or holds fewer than four bytes, panics. */
  function PutUint32(code: seq<byte>, at: int, w: uint32): (r: Result<seq<byte>, CompileError>)
    ensures r.Ok? <==> 0 <= at && at + 4 <= |code|
    ensures r.Err? ==> r.error == PatchOutOfRange
    ensures r.Ok? ==> |r.value| == |code| && r.value[at..at + 4] == LittleEndian(w)
    ensures r.Ok? ==> forall p :: 0 <= p < |code| && !(at <= p < at + 4) ==> r.value[p] == code[p]
  {
    if 0 <= at && at + 4 <= |code| then
      var c := code[..at] + LittleEndian(w) + code[at + 4..];
      assert c[at..at + 4] == LittleEndian(w);
      Ok(c)
    else Err(PatchOutOfRange)
  }

  /** Lines 171-174: a jump-unless-zero becomes CBNZ, any other jump CBZ. */
  function JumpOp(i: Instruction): BranchOp
  {
    if i.name == JumpUnlessZero then Cbnz else Cbz
  }

  /** Jump blocks link only to blocks that exist. */
  predicate LinksValid(blocks: seq<CodeBlock>)
  {
    forall i :: 0 <= i < |blocks| && IsJump(blocks[i].instruction) && blocks[i].link.Some? ==>
      blocks[i].link.value < |blocks|
  }

  /** Line 177: the distance in bytes from the block's own start to the
      start of the linked block, plus four. */
  function Distance(blocks: seq<CodeBlock>, k: int): int
    requires 0 <= k < |blocks| && blocks[k].link.Some? && blocks[k].link.value < |blocks|
  {
    blocks[blocks[k].link.value].offset - blocks[k].offset + 4
  }

  /** Block `k` can be patched in code of length `len`: it is not a jump,
      or it is linked, the encoder under `rel` accepts its distance and its
      placeholder is inside the code. */
  predicate Patchable(rel: Relocation, len: int, blocks: seq<CodeBlock>, k: int)
    requires 0 <= k < |blocks| && LinksValid(blocks)
  {
    IsJump(blocks[k].instruction) ==>
      && blocks[k].link.Some?
      && EncodeRelocated(rel, JumpOp(blocks[k].instruction), 11, Distance(blocks, k)).Ok?
      && 0 <= blocks[k].offset + 4 && blocks[k].offset + 8 <= len
  }

  /** Jump block `k` is linked and its placeholder lies inside the code. */
  predicate Placed(len: int, blocks: seq<CodeBlock>, k: int)
    requires 0 <= k < |blocks|
  {
    blocks[k].link.Some? && 0 <= blocks[k].offset + 4 && blocks[k].offset + 8 <= len
  }

  /** The placeholder of jump block `k` holds its branch. */
  predicate PatchedAt(rel: Relocation, code: seq<byte>, blocks: seq<CodeBlock>, k: int)
    requires 0 <= k < |blocks| && LinksValid(blocks)
  {
    IsJump(blocks[k].instruction) ==>
      && Patchable(rel, |code|, blocks, k)
      && code[blocks[k].offset + 4..blocks[k].offset + 8]
         == LittleEndian(EncodeRelocated(rel, JumpOp(blocks[k].instruction), 11, Distance(blocks, k)).value)
  }

  /** Byte `p` lies in the placeholder of one of the first `n` jump
      blocks. */
  predicate InPlaceholder(blocks: seq<CodeBlock>, n: int, p: int)
    requires n <= |blocks|
  {
    exists k :: 0 <= k < n && IsJump(blocks[k].instruction) && blocks[k].offset + 4 <= p < blocks[k].offset + 8
  }

  /** The jump blocks among the first `n` come in order of offset, each
      with room for its eight bytes before the next. */
  predicate JumpsApart(blocks: seq<CodeBlock>, n: int)
    requires n <= |blocks|
  {
    forall k, m :: 0 <= k < m < n && IsJump(blocks[k].instruction) && IsJump(blocks[m].instruction) ==>
      blocks[k].offset + 8 <= blocks[m].offset
  }

  /** One iteration of the second loop of `postProcessJumps`, lines
      161-187, with the branch encoded under `rel`; the source's is
      `AsWritten`. */
  function PatchBlock(rel: Relocation, code: seq<byte>, blocks: seq<CodeBlock>, k: int): (r: Result<seq<byte>, CompileError>)
    requires 0 <= k < |blocks| && LinksValid(blocks)
  {
    var b := blocks[k];
    if !IsJump(b.instruction) then Ok(code)
    else if b.link.None? then Err(LinkMissing)
    else
      var e := EncodeRelocated(rel, JumpOp(b.instruction), 11, Distance(blocks, k));
      if e.Err? then Err(Encode(e.error)) else PutUint32(code, b.offset + 4, e.value)
  }

  lemma PatchStep(rel: Relocation, code: seq<byte>, c: seq<byte>, blocks: seq<CodeBlock>, n: nat)
    requires 0 < n <= |blocks| && LinksValid(blocks) && |c| == |code|
    requires forall k :: 0 <= k < n - 1 ==> Patchable(rel, |code|, blocks, k)
    requires forall p :: 0 <= p < |code| && !InPlaceholder(blocks, n - 1, p) ==> c[p] == code[p]
    requires JumpsApart(blocks, n - 1) ==> forall k :: 0 <= k < n - 1 ==> PatchedAt(rel, c, blocks, k)
    requires PatchBlock(rel, c, blocks, n - 1).Ok?
    ensures var c' := PatchBlock(rel, c, blocks, n - 1).value;
            && |c'| == |code|
            && (forall k :: 0 <= k < n ==> Patchable(rel, |code|, blocks, k))
            && (forall p :: 0 <= p < |code| && !InPlaceholder(blocks, n, p) ==> c'[p] == code[p])
            && (JumpsApart(blocks, n) ==> forall k :: 0 <= k < n ==> PatchedAt(rel, c', blocks, k))
  {
    var c' := PatchBlock(rel, c, blocks, n - 1).value;
    var b := blocks[n - 1];
    forall p | 0 <= p < |code| && !InPlaceholder(blocks, n, p)
      ensures c'[p] == code[p]
    {
      assert !InPlaceholder(blocks, n - 1, p);
    }
    if JumpsApart(blocks, n) {
      forall k | 0 <= k < n
        ensures PatchedAt(rel, c', blocks, k)
      {
        if k < n - 1 && IsJump(blocks[k].instruction) {
          assert PatchedAt(rel, c, blocks, k);
          if IsJump(b.instruction) {
            assert c'[blocks[k].offset + 4..blocks[k].offset + 8] == c[blocks[k].offset + 4..blocks[k].offset + 8];
          }
        }
      }
    }
  }

  /** The second loop of `postProcessJumps` over the first `n` blocks: it
      succeeds exactly when every jump among them can be patched, changes
      no byte outside their placeholders, and, when their placeholders do
      not overlap, leaves each jump's branch in its placeholder. */
  function PatchAll(rel: Relocation, code: seq<byte>, blocks: seq<CodeBlock>, n: nat): (r: Result<seq<byte>, CompileError>)
    requires n <= |blocks| && LinksValid(blocks)
    ensures r.Ok? <==> forall k :: 0 <= k < n ==> Patchable(rel, |code|, blocks, k)
    ensures r.Ok? ==> |r.value| == |code|
    ensures r.Ok? ==> forall p :: 0 <= p < |code| && !InPlaceholder(blocks, n, p) ==> r.value[p] == code[p]
    ensures r.Ok? && JumpsApart(blocks, n) ==> forall k :: 0 <= k < n ==> PatchedAt(rel, r.value, blocks, k)
    ensures r.Err? && (forall k :: 0 <= k < n && IsJump(blocks[k].instruction) ==> Placed(|code|, blocks, k)) ==>
              r.error == Encode(OffsetOutOfRange)
  {
    if n == 0 then Ok(code)
    else
      var rest := PatchAll(rel, code, blocks, n - 1);
      if rest.Err? then rest
      else
        var r := PatchBlock(rel, rest.value, blocks, n - 1);
        if r.Err? then
          assert !Patchable(rel, |code|, blocks, n - 1);
          r
        else
          PatchStep(rel, code, rest.value, blocks, n);
          r
  }

  /** `postProcessJumps`: link every jump block, then patch every jump
      with the branch encoder under `rel`. A jump whose operand is not a
      block index panics; otherwise the pass succeeds exactly when every
      jump can be patched, changes only the placeholder bytes, and, when
      the placeholders do not overlap, leaves each jump's branch in its
      placeholder. */
  function PostProcessJumps(rel: Relocation, j: Jit): (r: Result<Jit, CompileError>)
    ensures (exists i :: 0 <= i < |j.codeBlocks| && !LinkInRange(j.codeBlocks, i)) ==> r == Err(LinkOutOfRange)
    ensures LinkBlocks(j.codeBlocks).Ok? ==> LinksValid(LinkBlocks(j.codeBlocks).value)
    ensures LinkBlocks(j.codeBlocks).Ok? ==>
              (r.Ok? <==> forall k :: 0 <= k < |j.codeBlocks| ==> Patchable(rel, |j.code|, LinkBlocks(j.codeBlocks).value, k))
    ensures r.Err? && LinkBlocks(j.codeBlocks).Ok? &&
            (forall k :: 0 <= k < |j.codeBlocks| && IsJump(j.codeBlocks[k].instruction) ==>
               Placed(|j.code|, LinkBlocks(j.codeBlocks).value, k)) ==>
              r.error == Encode(OffsetOutOfRange)
    ensures r.Ok? ==>
              && r.value.memorySize == j.memorySize && |r.value.code| == |j.code|
              && LinkedUpTo(j.codeBlocks, r.value.codeBlocks, |j.codeBlocks|)
              && r.value.codeBlocks == LinkBlocks(j.codeBlocks).value
              && LinksValid(r.value.codeBlocks)
    ensures r.Ok? ==>
              forall p :: 0 <= p < |j.code| && !InPlaceholder(r.value.codeBlocks, |j.codeBlocks|, p) ==> r.value.code[p] == j.code[p]
    ensures r.Ok? && JumpsApart(r.value.codeBlocks, |j.codeBlocks|) ==>
              forall k :: 0 <= k < |j.codeBlocks| ==> PatchedAt(rel, r.value.code, r.value.codeBlocks, k)
  {
    var linked :- LinkBlocks(j.codeBlocks);
    var code :- PatchAll(rel, j.code, linked, |linked|);
    Ok(Jit(j.memorySize, code, linked))
  }

  /** `Compile`: the prologue, the blocks, the epilogue, then the jump
      pass, whose branches are encoded under `rel` (the source's is
      `AsWritten`). An operand the first pass cannot encode stops it before
      the jump pass runs. */
  function Compile(rel: Relocation, j: Jit, prog: seq<Instruction>): (r: Result<Jit, CompileError>)
    ensures BadImmediate(prog) ==> r == Err(Encode(ImmediateOutOfRange))
    ensures r.Ok? ==>
              && r.value.memorySize == j.memorySize
              && |r.value.code| == |j.code| + |Prologue| + Layout(0, prog)[|prog|] + |Epilogue|
              && |r.value.codeBlocks| == |j.codeBlocks| + |prog|
  {
    var emitted := EmitAll(j.code + Prologue, prog);
    if emitted.Err? then Err(Encode(emitted.error))
    else
      LayoutShift(|j.code| + |Prologue|, prog);
      PostProcessJumps(rel, Jit(j.memorySize, emitted.value.0 + Epilogue, j.codeBlocks + emitted.value.1))
  }

  // ----- Layout facts -----

  lemma {:induction false} LayoutShift(base: int, prog: seq<Instruction>)
    ensures forall k :: 0 <= k <= |prog| ==> Layout(base, prog)[k] == base + Layout(0, prog)[k]
  {
    if prog != [] {
      LayoutShift(base, prog[..|prog| - 1]);
    }
  }

  /** Each block is as long as its instruction's emission. */
  lemma {:induction false} LayoutIncrements(base: int, prog: seq<Instruction>)
    ensures forall k :: 0 <= k < |prog| ==> Layout(base, prog)[k + 1] == Layout(base, prog)[k] + Size(prog[k].name)
  {
    if prog != [] {
      var n := |prog| - 1;
      var front := prog[..n];
      LayoutIncrements(base, front);
      var o, of := Layout(base, prog), Layout(base, front);
      LayoutStep(base, prog);
      forall k | 0 <= k < |prog|
        ensures o[k + 1] == o[k] + Size(prog[k].name)
      {
        if k < n {
          assert front[k] == prog[k];
          assert of[k + 1] == of[k] + Size(front[k].name);
        }
      }
    }
  }

  /** Blocks never start before earlier ones. */
  lemma {:induction false} LayoutMonotone(base: int, prog: seq<Instruction>)
    ensures forall a, b :: 0 <= a <= b <= |prog| ==> Layout(base, prog)[a] <= Layout(base, prog)[b]
  {
    if prog != [] {
      var n := |prog| - 1;
      var front := prog[..n];
      LayoutMonotone(base, front);
      var o, of := Layout(base, prog), Layout(base, front);
      LayoutStep(base, prog);
      forall a, b | 0 <= a <= b <= |prog|
        ensures o[a] <= o[b]
      {
        if b == n + 1 {
          if a <= n {
            assert of[a] <= of[n];
          }
        } else {
          assert of[a] <= of[b];
        }
      }
    }
  }

  /** Every block starts a whole number of 4-byte words after `base`. */
  lemma {:induction false} LayoutAligned(base: int, prog: seq<Instruction>)
    ensures forall k :: 0 <= k <= |prog| ==> (Layout(base, prog)[k] - base) % 4 == 0
  {
    if prog != [] {
      var n := |prog| - 1;
      var front := prog[..n];
      LayoutAligned(base, front);
      var o, of := Layout(base, prog), Layout(base, front);
      LayoutStep(base, prog);
      var sz := Size(prog[n].name);
      assert sz % 4 == 0;
      forall k | 0 <= k <= |prog|
        ensures (o[k] - base) % 4 == 0
      {
        if k <= n {
          assert (of[k] - base) % 4 == 0;
        } else {
          assert (of[n] - base) % 4 == 0;
          assert o[k] - base == (of[n] - base) + sz;
        }
      }
    }
  }

  lemma LayoutFacts(base: int, prog: seq<Instruction>)
    ensures forall k :: 0 <= k < |prog| ==> Layout(base, prog)[k + 1] == Layout(base, prog)[k] + Size(prog[k].name)
    ensures forall a, b :: 0 <= a <= b <= |prog| ==> Layout(base, prog)[a] <= Layout(base, prog)[b]
    ensures forall k :: 0 <= k <= |prog| ==> (Layout(base, prog)[k] - base) % 4 == 0
  {
    LayoutIncrements(base, prog);
    LayoutMonotone(base, prog);
    LayoutAligned(base, prog);
  }

  // ----- What a fresh compile produces -----

  /** Every jump operand names an instruction of the program. */
  predicate TargetsInRange(prog: seq<Instruction>)
  {
    forall k :: 0 <= k < |prog| && IsJump(prog[k]) ==> 0 <= prog[k].value < |prog|
  }

  /** Where each block of a fresh compile starts: after the prologue. */
  function Offsets(prog: seq<Instruction>): (o: seq<int>)
    ensures |o| == |prog| + 1
  {
    Layout(|Prologue|, prog)
  }

  /** The count of instructions from the branch of jump `k` (the second
      word of its block) to just past the branch of the block it names. */
  function BranchCount(prog: seq<Instruction>, k: int): (n: int)
    requires TargetsInRange(prog) && 0 <= k < |prog| && IsJump(prog[k])
  {
    (Offsets(prog)[prog[k].value] - Offsets(prog)[k]) / 4 + 1
  }

  /** The encoder under `rel` accepts the branch of jump `k`: as written,
      when the sign-extended count fits 19 bits, which holds for every
      count whose bit 18 is set; corrected, when the count itself does. */
  predicate BranchFits(rel: Relocation, prog: seq<Instruction>, k: int)
    requires TargetsInRange(prog) && 0 <= k < |prog|
  {
    IsJump(prog[k]) ==> InBranchRange(Relocated(rel, BranchCount(prog, k)))
  }

  predicate BranchesFit(rel: Relocation, prog: seq<Instruction>)
    requires TargetsInRange(prog)
  {
    forall k :: 0 <= k < |prog| ==> BranchFits(rel, prog, k)
  }

  /** Instruction `k` compiled to its own block, unchanged by the jump
      pass. */
  predicate BlockCompiled(prog: seq<Instruction>, code: seq<byte>, k: int)
    requires 0 <= k < |prog|
  {
    var o := Offsets(prog);
    && Emission(prog[k]).Ok?
    && 0 <= o[k] <= o[k + 1] <= |code|
    && code[o[k]..o[k + 1]] == Emission(prog[k]).value
  }

  /** Jump `k` compiled to a load of the current cell and a CBZ (CBNZ for
      a jump-unless-zero) on it, whose count is the relocated count of
      instructions to just past the branch of the block it jumps to. */
  predicate JumpCompiled(rel: Relocation, prog: seq<Instruction>, code: seq<byte>, k: int)
    requires TargetsInRange(prog) && 0 <= k < |prog| && IsJump(prog[k])
  {
    var o, t := Offsets(prog), prog[k].value;
    && 0 <= o[k] && o[k] + 8 <= |code|
    && code[o[k]..o[k] + 4] == LoadCell
    && DecodeCompareBranch(FromLittleEndian(code[o[k] + 4..o[k] + 8]))
       == Some(CompareBranch(false, prog[k].name == JumpUnlessZero, Relocated(rel, BranchCount(prog, k)), 11))
    && (o[k] + 4) + 4 * BranchCount(prog, k) == o[t] + 8
  }

  /** The whole result of compiling `prog` into a new JIT. */
  predicate Compiled(rel: Relocation, prog: seq<Instruction>, j: Jit)
    requires TargetsInRange(prog)
  {
    var o := Offsets(prog);
    && |j.code| == o[|prog|] + |Epilogue| && |Prologue| <= o[|prog|]
    && j.code[..|Prologue|] == Prologue && j.code[o[|prog|]..] == Epilogue
    && |j.codeBlocks| == |prog|
    && (forall k :: 0 <= k < |prog| ==>
          j.codeBlocks[k] == CodeBlock(prog[k], o[k], if IsJump(prog[k]) then Some(prog[k].value as nat) else None))
    && (forall k :: 0 <= k < |prog| && !IsJump(prog[k]) ==> BlockCompiled(prog, j.code, k))
    && (forall k :: 0 <= k < |prog| && IsJump(prog[k]) ==> JumpCompiled(rel, prog, j.code, k))
  }

  lemma QuarterExact(d: int)
    requires d % 4 == 0
    ensures TruncDiv(d, 4) == d / 4 && 4 * (d / 4) == d
  {
  }

  /** The blocks of a fresh compile, once linked. */
  predicate FreshBlocks(prog: seq<Instruction>, linked: seq<CodeBlock>)
    requires TargetsInRange(prog)
  {
    && |linked| == |prog|
    && forall k :: 0 <= k < |prog| ==>
         linked[k] == CodeBlock(prog[k], Offsets(prog)[k], if IsJump(prog[k]) then Some(prog[k].value as nat) else None)
  }

  lemma FreshLinks(prog: seq<Instruction>, blocks: seq<CodeBlock>)
    requires BlocksAt(Offsets(prog), prog, blocks)
    ensures LinkBlocks(blocks).Err? <==> !TargetsInRange(prog)
    ensures LinkBlocks(blocks).Ok? ==> TargetsInRange(prog) && FreshBlocks(prog, LinkBlocks(blocks).value)
  {
    if !TargetsInRange(prog) {
      var k :| 0 <= k < |prog| && IsJump(prog[k]) && !(0 <= prog[k].value < |prog|);
      assert !LinkInRange(blocks, k);
    }
  }

  lemma FreshApart(prog: seq<Instruction>, linked: seq<CodeBlock>)
    requires TargetsInRange(prog) && FreshBlocks(prog, linked)
    ensures LinksValid(linked) && JumpsApart(linked, |linked|)
  {
    LayoutFacts(|Prologue|, prog);
    var o := Offsets(prog);
    forall k, m | 0 <= k < m < |linked| && IsJump(linked[k].instruction) && IsJump(linked[m].instruction)
      ensures linked[k].offset + 8 <= linked[m].offset
    {
      assert o[k + 1] == o[k] + 8;
      assert o[k + 1] <= o[m];
    }
  }

  /** A jump of a fresh compile can be patched exactly when its branch
      fits. */
  lemma FreshPatchable(rel: Relocation, prog: seq<Instruction>, linked: seq<CodeBlock>, len: int, k: int)
    requires TargetsInRange(prog) && FreshBlocks(prog, linked) && LinksValid(linked)
    requires 0 <= k < |prog| && len >= Offsets(prog)[|prog|]
    ensures Patchable(rel, len, linked, k) <==> BranchFits(rel, prog, k)
    ensures IsJump(prog[k]) ==>
              var d := Offsets(prog)[prog[k].value] - Offsets(prog)[k] + 4;
              && Distance(linked, k) == d && TruncDiv(d, 4) == BranchCount(prog, k) && 4 * ((d - 4) / 4) == d - 4
  {
    LayoutFacts(|Prologue|, prog);
    var o := Offsets(prog);
    if IsJump(prog[k]) {
      var t := prog[k].value;
      var d := o[t] - o[k] + 4;
      assert Distance(linked, k) == d;
      assert (o[t] - |Prologue|) % 4 == 0 && (o[k] - |Prologue|) % 4 == 0;
      assert (d - 4) % 4 == 0;
      QuarterExact(d - 4);
      QuarterExact(d);
      assert o[k] + 8 == o[k + 1] <= o[|prog|];
    }
  }

  /** Within block `k` of a fresh compile, outside the placeholder of a
      jump block, no byte is patched. */
  lemma BlockUntouched(prog: seq<Instruction>, linked: seq<CodeBlock>, k: int, p: int)
    requires TargetsInRange(prog) && FreshBlocks(prog, linked)
    requires 0 <= k < |prog| && Offsets(prog)[k] <= p < Offsets(prog)[k + 1]
    requires IsJump(prog[k]) ==> p < Offsets(prog)[k] + 4
    ensures !InPlaceholder(linked, |linked|, p)
  {
    LayoutFacts(|Prologue|, prog);
    var o := Offsets(prog);
    forall m | 0 <= m < |linked| && IsJump(linked[m].instruction)
      ensures !(linked[m].offset + 4 <= p < linked[m].offset + 8)
    {
      if m < k {
        assert o[m + 1] == o[m] + 8 && o[m + 1] <= o[k];
      } else if m > k {
        assert o[k + 1] <= o[m];
      }
    }
  }

  /** Outside every block of a fresh compile no byte is patched. */
  lemma FrameUntouched(prog: seq<Instruction>, linked: seq<CodeBlock>, p: int)
    requires TargetsInRange(prog) && FreshBlocks(prog, linked)
    requires p < |Prologue| || Offsets(prog)[|prog|] <= p
    ensures !InPlaceholder(linked, |linked|, p)
  {
    LayoutFacts(|Prologue|, prog);
    var o := Offsets(prog);
    forall m | 0 <= m < |linked| && IsJump(linked[m].instruction)
      ensures !(linked[m].offset + 4 <= p < linked[m].offset + 8)
    {
      assert o[0] <= o[m];
      assert o[m + 1] == o[m] + 8 && o[m + 1] <= o[|prog|];
    }
  }

  lemma SameSlice(a: seq<byte>, b: seq<byte>, i: int, j: int)
    requires 0 <= i <= j <= |a| == |b|
    requires forall p :: i <= p < j ==> a[p] == b[p]
    ensures a[i..j] == b[i..j]
  {
    assert forall q :: 0 <= q < j - i ==> a[i..j][q] == a[i + q] && b[i..j][q] == b[i + q];
  }

  /** The stages of a fresh compile whose immediates and jump targets are
      all good. */
  lemma FreshStages(rel: Relocation, memorySize: nat, prog: seq<Instruction>) returns (code: seq<byte>, linked: seq<CodeBlock>)
    requires !BadImmediate(prog) && TargetsInRange(prog)
    ensures code == EmitAll(Prologue, prog).value.0 + Epilogue && LinkBlocks(EmitAll(Prologue, prog).value.1) == Ok(linked)
    ensures |code| == Offsets(prog)[|prog|] + |Epilogue| && |Prologue| <= Offsets(prog)[|prog|]
    ensures code[..|Prologue|] == Prologue && code[Offsets(prog)[|prog|]..] == Epilogue
    ensures CodeAt(Offsets(prog), prog, code)
    ensures FreshBlocks(prog, linked) && LinksValid(linked) && JumpsApart(linked, |linked|)
    ensures forall k :: 0 <= k < |prog| ==> (Patchable(rel, |code|, linked, k) <==> BranchFits(rel, prog, k))
    ensures forall k :: 0 <= k < |prog| && IsJump(prog[k]) ==> Placed(|code|, linked, k)
    ensures Compile(rel, NewJit(memorySize), prog)
            == (var patched :- PatchAll(rel, code, linked, |linked|); Ok(Jit(memorySize, patched, linked)))
  {
    var emitted := EmitAll([] + Prologue, prog);
    assert [] + Prologue == Prologue;
    var (code0, blocks) := emitted.value;
    code := code0 + Epilogue;
    assert [] + blocks == blocks;
    FreshLinks(prog, blocks);
    linked := LinkBlocks(blocks).value;
    FreshApart(prog, linked);
    LayoutFacts(|Prologue|, prog);
    var o := Offsets(prog);
    assert o[0] <= o[|prog|];
    SliceOfAppend(code0, Epilogue, 0, |Prologue|);
    assert code[o[|prog|]..] == Epilogue;
    forall k | 0 <= k < |prog|
      ensures BlockCode(o, prog, code, k)
    {
      assert BlockCode(o, prog, code0, k);
      SliceOfAppend(code0, Epilogue, o[k], o[k + 1]);
    }
    forall k | 0 <= k < |prog|
      ensures (Patchable(rel, |code|, linked, k) <==> BranchFits(rel, prog, k))
      ensures IsJump(prog[k]) ==> Placed(|code|, linked, k)
    {
      FreshPatchable(rel, prog, linked, |code|, k);
      assert o[k] >= o[0];
      if IsJump(prog[k]) {
        assert o[k + 1] == o[k] + 8 && o[k + 1] <= o[|prog|];
      }
    }
  }

  /** How a compile into a new JIT ends: an operand that does not fit an
      immediate, else a jump operand that names no instruction, else a
      branch the encoder under `rel` refuses, else success. */
  lemma CompileNewErrors(rel: Relocation, memorySize: nat, prog: seq<Instruction>)
    ensures BadImmediate(prog) ==> Compile(rel, NewJit(memorySize), prog) == Err(Encode(ImmediateOutOfRange))
    ensures !BadImmediate(prog) && !TargetsInRange(prog) ==>
              Compile(rel, NewJit(memorySize), prog) == Err(LinkOutOfRange)
    ensures !BadImmediate(prog) && TargetsInRange(prog) && !BranchesFit(rel, prog) ==>
              Compile(rel, NewJit(memorySize), prog) == Err(Encode(OffsetOutOfRange))
    ensures !BadImmediate(prog) && TargetsInRange(prog) && BranchesFit(rel, prog) ==>
              Compile(rel, NewJit(memorySize), prog).Ok?
  {
    if !BadImmediate(prog) {
      if TargetsInRange(prog) {
        var code, linked := FreshStages(rel, memorySize, prog);
      } else {
        var emitted := EmitAll([] + Prologue, prog);
        assert [] + Prologue == Prologue;
        assert [] + emitted.value.1 == emitted.value.1;
        FreshLinks(prog, emitted.value.1);
      }
    }
  }

  /** A successful compile into a new JIT is the prologue, then one block
      per instruction at the offsets the sizes give, then the epilogue;
      every non-jump block holds the code its instruction emits, and every
      jump block holds a load of the current cell and a branch by the
      relocated count to just past the branch of the block it names. */
  lemma CompileNewLayout(rel: Relocation, memorySize: nat, prog: seq<Instruction>)
    requires Compile(rel, NewJit(memorySize), prog).Ok?
    ensures TargetsInRange(prog) && BranchesFit(rel, prog) && !BadImmediate(prog)
    ensures Compile(rel, NewJit(memorySize), prog).value.memorySize == memorySize
    ensures Compiled(rel, prog, Compile(rel, NewJit(memorySize), prog).value)
  {
    CompileNewErrors(rel, memorySize, prog);
    var code, linked := FreshStages(rel, memorySize, prog);
    var patched := PatchAll(rel, code, linked, |linked|).value;
    assert Compile(rel, NewJit(memorySize), prog).value == Jit(memorySize, patched, linked);
    FrameKept(prog, code, linked, patched);
    forall k | 0 <= k < |prog| && !IsJump(prog[k])
      ensures BlockCompiled(prog, patched, k)
    {
      NonJumpBlock(prog, code, linked, patched, k);
    }
    forall k | 0 <= k < |prog| && IsJump(prog[k])
      ensures JumpCompiled(rel, prog, patched, k)
    {
      JumpBlock(rel, prog, code, linked, patched, k);
    }
  }

  lemma FrameKept(prog: seq<Instruction>, code: seq<byte>, linked: seq<CodeBlock>, patched: seq<byte>)
    requires TargetsInRange(prog) && FreshBlocks(prog, linked)
    requires |code| == Offsets(prog)[|prog|] + |Epilogue| && |Prologue| <= Offsets(prog)[|prog|]
    requires code[..|Prologue|] == Prologue && code[Offsets(prog)[|prog|]..] == Epilogue
    requires |patched| == |code|
    requires forall p :: 0 <= p < |code| && !InPlaceholder(linked, |linked|, p) ==> patched[p] == code[p]
    ensures patched[..|Prologue|] == Prologue && patched[Offsets(prog)[|prog|]..] == Epilogue
  {
    var o := Offsets(prog);
    forall p | 0 <= p < |code| && (p < |Prologue| || o[|prog|] <= p)
      ensures patched[p] == code[p]
    {
      FrameUntouched(prog, linked, p);
    }
    SameSlice(patched, code, 0, |Prologue|);
    SameSlice(patched, code, o[|prog|], |code|);
  }

  lemma NonJumpBlock(prog: seq<Instruction>, code: seq<byte>, linked: seq<CodeBlock>, patched: seq<byte>, k: int)
    requires TargetsInRange(prog) && FreshBlocks(prog, linked) && CodeAt(Offsets(prog), prog, code)
    requires |patched| == |code| && 0 <= k < |prog| && !IsJump(prog[k])
    requires forall p :: 0 <= p < |code| && !InPlaceholder(linked, |linked|, p) ==> patched[p] == code[p]
    ensures BlockCompiled(prog, patched, k)
  {
    var o := Offsets(prog);
    assert BlockCode(o, prog, code, k);
    forall p | o[k] <= p < o[k + 1]
      ensures patched[p] == code[p]
    {
      BlockUntouched(prog, linked, k, p);
    }
    SameSlice(patched, code, o[k], o[k + 1]);
  }

  lemma JumpBlock(rel: Relocation, prog: seq<Instruction>, code: seq<byte>, linked: seq<CodeBlock>, patched: seq<byte>, k: int)
    requires TargetsInRange(prog) && BranchesFit(rel, prog) && FreshBlocks(prog, linked) && LinksValid(linked)
    requires |code| == Offsets(prog)[|prog|] + |Epilogue| && CodeAt(Offsets(prog), prog, code)
    requires |patched| == |code| && 0 <= k < |prog| && IsJump(prog[k])
    requires forall p :: 0 <= p < |code| && !InPlaceholder(linked, |linked|, p) ==> patched[p] == code[p]
    requires PatchedAt(rel, patched, linked, k)
    ensures JumpCompiled(rel, prog, patched, k)
  {
    LayoutFacts(|Prologue|, prog);
    var o, t := Offsets(prog), prog[k].value;
    assert BlockCode(o, prog, code, k);
    assert o[k + 1] == o[k] + 8 && o[k + 1] <= o[|prog|];
    assert code[o[k]..o[k] + 4] == LoadCell by {
      assert code[o[k]..o[k + 1]] == LoadCell + Placeholder;
      assert code[o[k]..o[k] + 4] == code[o[k]..o[k + 1]][..4];
    }
    forall p | o[k] <= p < o[k] + 4
      ensures patched[p] == code[p]
    {
      BlockUntouched(prog, linked, k, p);
    }
    SameSlice(patched, code, o[k], o[k] + 4);
    assert BranchFits(rel, prog, k);
    FreshPatchable(rel, prog, linked, |code|, k);
    var d := o[t] - o[k] + 4;
    var w := EncodeRelocated(rel, JumpOp(prog[k]), 11, d).value;
    assert patched[o[k] + 4..o[k] + 8] == LittleEndian(w);
  }

  // ----- Where the branches land -----

  /** The branch of a compiled jump lands just past the branch of the block
      it names exactly when its relocation kept the count: under the
      corrected check always, and as written exactly when the count fits
      the signed 19-bit field. */
  lemma JumpLands(rel: Relocation, prog: seq<Instruction>, code: seq<byte>, k: int)
    requires TargetsInRange(prog) && 0 <= k < |prog| && IsJump(prog[k]) && JumpCompiled(rel, prog, code, k)
    ensures var o, t := Offsets(prog), prog[k].value;
            var b := DecodeCompareBranch(FromLittleEndian(code[o[k] + 4..o[k] + 8]));
            && b.Some?
            && ((o[k] + 4) + 4 * b.value.imm19 == o[t] + 8 <==> rel == Corrected || InBranchRange(BranchCount(prog, k)))
  {
    var o := Offsets(prog);
    var w := FromLittleEndian(code[o[k] + 4..o[k] + 8]);
    assert InBranchRange(Relocated(rel, BranchCount(prog, k))) by {
      assert Relocated(rel, BranchCount(prog, k)) == Signed19((w / 0x20) % 0x8_0000);
    }
    RelocationKeepsCount(rel, BranchCount(prog, k));
  }

  /** Patching with either range check gives the same result when every
      linked jump among the first `n` has a word offset that fits. */
  lemma {:induction false} PatchAllAgree(code: seq<byte>, blocks: seq<CodeBlock>, n: nat)
    requires n <= |blocks| && LinksValid(blocks)
    requires forall k :: 0 <= k < n && IsJump(blocks[k].instruction) && blocks[k].link.Some? ==>
               InBranchRange(TruncDiv(Distance(blocks, k), 4))
    ensures PatchAll(AsWritten, code, blocks, n) == PatchAll(Corrected, code, blocks, n)
  {
    if n > 0 {
      PatchAllAgree(code, blocks, n - 1);
      var b := blocks[n - 1];
      if IsJump(b.instruction) && b.link.Some? {
        EncodersAgreeInRange(JumpOp(b.instruction), 11, Distance(blocks, n - 1));
      }
    }
  }

  /** The corrected range check changes a compile into a new JIT only
      where the check as written lets a branch through whose count does
      not fit: whatever the corrected compiler accepts, the compiler as
      written compiles to the same code, and whatever the compiler as
      written refuses, the corrected one refuses with the same error. */
  lemma CompileAgreesInReach(memorySize: nat, prog: seq<Instruction>)
    ensures Compile(Corrected, NewJit(memorySize), prog).Ok? ==>
              Compile(AsWritten, NewJit(memorySize), prog) == Compile(Corrected, NewJit(memorySize), prog)
    ensures Compile(AsWritten, NewJit(memorySize), prog).Err? ==>
              Compile(Corrected, NewJit(memorySize), prog) == Compile(AsWritten, NewJit(memorySize), prog)
  {
    CompileNewErrors(AsWritten, memorySize, prog);
    CompileNewErrors(Corrected, memorySize, prog);
    if !BadImmediate(prog) && TargetsInRange(prog) {
      if BranchesFit(Corrected, prog) {
        SameCompileInReach(memorySize, prog);
      } else {
        CorrectedFitsLess(prog);
      }
    }
  }

  /** Every branch the corrected check accepts, the check as written
      accepts too. */
  lemma CorrectedFitsLess(prog: seq<Instruction>)
    requires TargetsInRange(prog)
    ensures BranchesFit(Corrected, prog) ==> BranchesFit(AsWritten, prog)
  {
    forall k | 0 <= k < |prog| && BranchFits(Corrected, prog, k)
      ensures BranchFits(AsWritten, prog, k)
    {
    }
  }

  lemma SameCompileInReach(memorySize: nat, prog: seq<Instruction>)
    requires !BadImmediate(prog) && TargetsInRange(prog) && BranchesFit(Corrected, prog)
    ensures Compile(AsWritten, NewJit(memorySize), prog) == Compile(Corrected, NewJit(memorySize), prog)
  {
    var code, linked := FreshStages(AsWritten, memorySize, prog);
    var code', linked' := FreshStages(Corrected, memorySize, prog);
    assert code' == code && linked' == linked;
    FreshOffsetsFit(prog, linked, |code|);
    PatchAllAgree(code, linked, |linked|);
  }

  /** In a fresh compile whose branches all fit the corrected check, every
      jump's word offset fits the field. */
  lemma FreshOffsetsFit(prog: seq<Instruction>, linked: seq<CodeBlock>, len: int)
    requires TargetsInRange(prog) && FreshBlocks(prog, linked) && LinksValid(linked) && BranchesFit(Corrected, prog)
    requires len >= Offsets(prog)[|prog|]
    ensures forall k :: 0 <= k < |linked| && IsJump(linked[k].instruction) && linked[k].link.Some? ==>
              InBranchRange(TruncDiv(Distance(linked, k), 4))
  {
    forall k | 0 <= k < |linked| && IsJump(linked[k].instruction) && linked[k].link.Some?
      ensures InBranchRange(TruncDiv(Distance(linked, k), 4))
    {
      FreshPatchable(Corrected, prog, linked, len, k);
      assert BranchFits(Corrected, prog, k);
    }
  }

  /** A forward jump over `m` moves to a backward jump: the first jump
      names the last instruction. */
  function FarJump(m: nat): (prog: seq<Instruction>)
    ensures |prog| == m + 2
  {
    [Instruction(JumpIfZero, m + 1)] + seq(m, _ => Instruction(MoveRight, 1)) + [Instruction(JumpUnlessZero, 0)]
  }

  lemma {:induction false} FarJumpOffsets(m: nat, i: nat)
    requires 1 <= i <= m + 1
    ensures Offsets(FarJump(m))[i] == 16 + 8 + 4 * (i - 1)
  {
    var prog := FarJump(m);
    LayoutIncrements(|Prologue|, prog);
    if i > 1 {
      FarJumpOffsets(m, i - 1);
      assert prog[i - 1] == Instruction(MoveRight, 1);
    } else {
      assert prog[0].name == JumpIfZero;
    }
  }

  /** Every program `FarJump(m)` compiles without an immediate or link
      error, and its first jump asks for a count of `m + 3` instructions,
      its last for a count of `-(m + 1)`. */
  lemma FarJumpCounts(m: nat)
    ensures var prog := FarJump(m);
            && !BadImmediate(prog) && TargetsInRange(prog)
            && BranchCount(prog, 0) == m + 3 && BranchCount(prog, m + 1) == -(m + 1)
            && forall k :: 0 < k < m + 1 ==> !IsJump(prog[k])
  {
    var prog := FarJump(m);
    assert !BadImmediate(prog) by {
      forall k | 0 <= k < |prog|
        ensures Emission(prog[k]).Ok?
      {
        assert prog[k].name in {JumpIfZero, JumpUnlessZero, MoveRight} && (prog[k].name == MoveRight ==> prog[k].value == 1);
      }
    }
    assert forall k :: 0 < k < m + 1 ==> prog[k] == Instruction(MoveRight, 1);
    FarJumpOffsets(m, m + 1);
    assert Offsets(prog)[0] == 16;
  }

  /** The branches of `FarJump(2^18 - 3)`: the first asks for a count of
      2^18, which the check as written lets through and the corrected one
      refuses; the last fits either. */
  lemma FarJumpBranches()
    ensures var prog := FarJump(0x3_FFFD);
            && !BadImmediate(prog) && TargetsInRange(prog)
            && BranchCount(prog, 0) == 0x4_0000 && Relocated(AsWritten, BranchCount(prog, 0)) == -0x4_0000
            && BranchesFit(AsWritten, prog) && !BranchesFit(Corrected, prog)
  {
    var m := 0x3_FFFD;
    var prog := FarJump(m);
    FarJumpCounts(m);
    assert Relocated(AsWritten, 0x4_0000) == -0x4_0000;
    forall k | 0 <= k < |prog|
      ensures BranchFits(AsWritten, prog, k)
    {
      if 0 < k < m + 1 {
        assert !IsJump(prog[k]);
      }
    }
    assert !BranchFits(Corrected, prog, 0);
  }

  /** The program that shows the sign extension of lines 213-216 at work:
      a forward jump over 2^18 - 3 moves, to just past a branch 2^18
      instructions on, is compiled by the compiler as written into a branch
      2^18 instructions back, before the start of the code; the corrected
      compiler refuses the program. */
  lemma FarJumpGoesBackward(memorySize: nat)
    ensures var prog := FarJump(0x3_FFFD);
            && prog[0] == Instruction(JumpIfZero, |prog| - 1)
            && Compile(AsWritten, NewJit(memorySize), prog).Ok?
            && DecodeCompareBranch(FromLittleEndian(Compile(AsWritten, NewJit(memorySize), prog).value.code[20..24]))
               == Some(CompareBranch(false, false, -0x4_0000, 11))
            && Compile(Corrected, NewJit(memorySize), prog) == Err(Encode(OffsetOutOfRange))
  {
    var prog := FarJump(0x3_FFFD);
    FarJumpBranches();
    CompileNewErrors(AsWritten, memorySize, prog);
    CompileNewErrors(Corrected, memorySize, prog);
    var j := Compile(AsWritten, NewJit(memorySize), prog).value;
    CompileNewLayout(AsWritten, memorySize, prog);
    assert JumpCompiled(AsWritten, prog, j.code, 0);
    assert Offsets(prog)[0] == 16;
  }
}
