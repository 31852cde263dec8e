/**
 * The optimizer (instructions/optimizer.go): run-length compression of
 * moves and cell arithmetic, followed by the remapping of every jump target
 * from an index of the input stream to an index of the compressed stream.
 */
module Optimizer {
  import opened Instructions

  /** The record of one compression: the run started at `startIndex` and
      `length` of its instructions were folded into the first. */
  datatype OptimizedBlock = OptimizedBlock(startIndex: int, length: int, instruction: Opcode)

  /** The compressed stream together with the records of the compressions
      that produced it, in the order they were performed. */
  datatype Compressed = Compressed(out: seq<Instruction>, records: seq<OptimizedBlock>)

  // ----- Run-length compression -----

  /** The inner loop of `OptimizeInstructions`: how many instructions from
      `i` on share the opcode of `prog[i]`. */
  function RunLength(prog: seq<Instruction>, i: nat): (k: nat)
    requires i < |prog|
    ensures 1 <= k <= |prog| - i
    ensures forall t :: i <= t < i + k ==> prog[t].name == prog[i].name
    ensures i + k == |prog| || prog[i + k].name != prog[i].name
    decreases |prog| - i
  {
    if i + 1 < |prog| && prog[i + 1].name == prog[i].name then 1 + RunLength(prog, i + 1) else 1
  }

  /** The scan folds a run at `i`: the instruction is foldable, it is not
      the last one, and its successor has the same opcode. */
  predicate Compressible(prog: seq<Instruction>, i: nat)
    requires i < |prog|
  {
    CanBeOptimized(prog[i]) && i + 1 < |prog| && prog[i + 1].name == prog[i].name
  }

  /** The scan of `OptimizeInstructions` from input index `i` on. */
  function Compress(prog: seq<Instruction>, i: nat): Compressed
    requires i <= |prog|
    decreases |prog| - i
  {
    if i == |prog| then Compressed([], [])
    else if !Compressible(prog, i) then
      var rest := Compress(prog, i + 1);
      Compressed([prog[i]] + rest.out, rest.records)
    else
      var k := RunLength(prog, i);
      var rest := Compress(prog, i + k);
      Compressed([prog[i].(value := k)] + rest.out, [OptimizedBlock(i, k - 1, prog[i].name)] + rest.records)
  }

  // ----- Jump remapping -----

  /** The two conditions under which `recalculateJumps` subtracts a
      record's length from the jump at output index `idx` whose original
      target is `v`. */
  predicate Hit(rec: OptimizedBlock, idx: int, v: int)
  {
    || (v > rec.startIndex && rec.startIndex + rec.length < v)
    || (idx > rec.startIndex && v > rec.startIndex)
  }

  /** The total subtracted from a jump's target over all records. */
  function Shift(records: seq<OptimizedBlock>, idx: int, v: int): int
  {
    if records == [] then 0
    else (if Hit(records[0], idx, v) then records[0].length else 0) + Shift(records[1..], idx, v)
  }

  /** `recalculateJumps`: each jump's new target is its original target less
      the lengths of the records that hit it. Nothing but jump targets
      changes. */
  function RecalculateJumps(out: seq<Instruction>, records: seq<OptimizedBlock>): (r: seq<Instruction>)
    ensures |r| == |out|
    ensures forall p :: 0 <= p < |out| ==> r[p].name == out[p].name
    ensures forall p :: 0 <= p < |out| && !IsJump(out[p]) ==> r[p] == out[p]
    ensures records == [] ==> r == out
  {
    seq(|out|, p requires 0 <= p < |out| =>
      if IsJump(out[p]) then out[p].(value := out[p].value - Shift(records, p, out[p].value)) else out[p])
  }

  // ----- Reference definitions -----

  /** Input index `j` lies inside a run and is folded into an earlier
      instruction. Out-of-range indices are never absorbed. */
  predicate Absorbed(prog: seq<Instruction>, j: int)
  {
    0 < j < |prog| && CanBeOptimized(prog[j]) && prog[j - 1].name == prog[j].name
  }

  /** The instruction the input instruction at a run start becomes. */
  function Folded(prog: seq<Instruction>, j: nat): Instruction
    requires j < |prog|
  {
    if Compressible(prog, j) then prog[j].(value := RunLength(prog, j)) else prog[j]
  }

  /** The instructions removed before input index `v`: the lengths of the
      records whose whole run lies before `v`. */
  function Removed(records: seq<OptimizedBlock>, v: int): int
  {
    if records == [] then 0
    else (if records[0].startIndex + records[0].length < v then records[0].length else 0) + Removed(records[1..], v)
  }

  function TotalLength(records: seq<OptimizedBlock>): int
  {
    if records == [] then 0 else records[0].length + TotalLength(records[1..])
  }

  /** Where the scan started at `i` places input index `j`. */
  function OutIndex(records: seq<OptimizedBlock>, i: int, j: int): int
  {
    j - i - Removed(records, j)
  }

  /** A record describes a real run of the input, found at or after `i`. */
  ghost predicate RecordOk(prog: seq<Instruction>, i: int, rec: OptimizedBlock)
  {
    && 0 <= i <= rec.startIndex
    && 1 <= rec.length
    && rec.startIndex + rec.length < |prog|
    && Compressible(prog, rec.startIndex)
    && rec.length == RunLength(prog, rec.startIndex) - 1
    && rec.instruction == prog[rec.startIndex].name
    && (forall t :: rec.startIndex < t <= rec.startIndex + rec.length ==> Absorbed(prog, t))
  }

  /** No two adjacent instructions form a foldable run. */
  predicate NoRuns(prog: seq<Instruction>)
  {
    forall p :: 0 <= p < |prog| - 1 && CanBeOptimized(prog[p]) ==> prog[p + 1].name != prog[p].name
  }

  // ----- Facts about the scan -----

  lemma RemovedNone(records: seq<OptimizedBlock>, v: int)
    requires forall q :: 0 <= q < |records| ==> v <= records[q].startIndex + records[q].length
    ensures Removed(records, v) == 0
  {
  }

  lemma FirstRecordOk(prog: seq<Instruction>, i: nat)
    requires i < |prog| && Compressible(prog, i)
    ensures RecordOk(prog, i, OptimizedBlock(i, RunLength(prog, i) - 1, prog[i].name))
  {
    var k := RunLength(prog, i);
    forall t | i < t <= i + k - 1 ensures Absorbed(prog, t) {
      assert prog[t - 1].name == prog[i].name;
    }
  }

  /** Where the scan goes on after index `i`: past the whole run if it
      folds one, to the next instruction otherwise. */
  function NextStart(prog: seq<Instruction>, i: nat): (n: nat)
    requires i < |prog|
    ensures i < n <= |prog|
  {
    if Compressible(prog, i) then i + RunLength(prog, i) else i + 1
  }

  /** Every record describes a real run found at or after `i`, and the
      records are in increasing order of their starts. */
  ghost predicate RecordsOk(prog: seq<Instruction>, i: int, records: seq<OptimizedBlock>)
  {
    && (forall q :: 0 <= q < |records| ==> RecordOk(prog, i, records[q]))
    && (forall q :: 0 <= q < |records| - 1 ==> records[q].startIndex < records[q + 1].startIndex)
  }

  lemma RecordsOkEarlier(prog: seq<Instruction>, i: int, n: int, records: seq<OptimizedBlock>)
    requires 0 <= i <= n && RecordsOk(prog, n, records)
    ensures RecordsOk(prog, i, records)
  {
    forall q | 0 <= q < |records| ensures RecordOk(prog, i, records[q]) {
      assert RecordOk(prog, n, records[q]);
    }
  }

  lemma RecordsOkCons(prog: seq<Instruction>, i: int, head: OptimizedBlock, rest: seq<OptimizedBlock>)
    requires RecordOk(prog, i, head) && RecordsOk(prog, i, rest)
    requires |rest| > 0 ==> head.startIndex < rest[0].startIndex
    ensures RecordsOk(prog, i, [head] + rest)
  {
    var r := [head] + rest;
    forall q | 0 <= q < |r| ensures RecordOk(prog, i, r[q]) {
      if q > 0 {
        assert r[q] == rest[q - 1];
      }
    }
    forall q | 0 <= q < |r| - 1 ensures r[q].startIndex < r[q + 1].startIndex {
      if q > 0 {
        assert r[q] == rest[q - 1] && r[q + 1] == rest[q];
      }
    }
  }

  lemma {:induction false} CompressRecords(prog: seq<Instruction>, i: nat)
    requires i <= |prog|
    ensures var c := Compress(prog, i);
            && (forall q :: 0 <= q < |c.records| ==> RecordOk(prog, i, c.records[q]))
            && (forall q :: 0 <= q < |c.records| - 1 ==> c.records[q].startIndex < c.records[q + 1].startIndex)
            && |c.out| + TotalLength(c.records) == |prog| - i
    decreases |prog| - i
  {
    if i < |prog| {
      var c, n := Compress(prog, i), NextStart(prog, i);
      var rest := Compress(prog, n);
      CompressRecords(prog, n);
      assert RecordsOk(prog, n, rest.records);
      RecordsOkEarlier(prog, i, n, rest.records);
      if Compressible(prog, i) {
        var head := OptimizedBlock(i, RunLength(prog, i) - 1, prog[i].name);
        assert c.records == [head] + rest.records;
        assert c.records[1..] == rest.records;
        FirstRecordOk(prog, i);
        if |rest.records| > 0 {
          assert RecordOk(prog, n, rest.records[0]);
        }
        RecordsOkCons(prog, i, head, rest.records);
      }
      assert RecordsOk(prog, i, c.records);
    }
  }

  /** One step of the scan: it emits the folded run start and continues at
      `NextStart`, so that indices from there on move down by the
      instructions of that step, and nothing is removed before `i`. */
  lemma CompressStep(prog: seq<Instruction>, i: nat)
    requires i < |prog|
    ensures var c, n := Compress(prog, i), NextStart(prog, i);
            var rest := Compress(prog, n);
            && c.out == [Folded(prog, i)] + rest.out
            && Removed(c.records, i) == 0
            && (forall j :: n <= j ==> OutIndex(c.records, i, j) == 1 + OutIndex(rest.records, n, j))
  {
    var c, n := Compress(prog, i), NextStart(prog, i);
    var rest := Compress(prog, n);
    CompressRecords(prog, i);
    forall q | 0 <= q < |c.records| ensures i <= c.records[q].startIndex + c.records[q].length {
      assert RecordOk(prog, i, c.records[q]);
    }
    RemovedNone(c.records, i);
    if Compressible(prog, i) {
      assert c.records[1..] == rest.records;
    }
  }

  /** A run start of the input lands in the compressed stream at its
      `OutIndex`, as its folded form; starts keep their order. */
  lemma {:induction false} CompressPlacement(prog: seq<Instruction>, i: nat)
    requires i <= |prog| && !Absorbed(prog, i)
    ensures var c := Compress(prog, i);
            && (forall j :: i <= j < |prog| && !Absorbed(prog, j) ==>
                  0 <= OutIndex(c.records, i, j) < |c.out| && c.out[OutIndex(c.records, i, j)] == Folded(prog, j))
            && (forall j1, j2 :: i <= j1 < j2 < |prog| && !Absorbed(prog, j1) && !Absorbed(prog, j2) ==>
                  OutIndex(c.records, i, j1) < OutIndex(c.records, i, j2))
    decreases |prog| - i
  {
    if i < |prog| {
      var c, n := Compress(prog, i), NextStart(prog, i);
      var rest := Compress(prog, n);
      CompressStep(prog, i);
      CompressPlacement(prog, n);
      forall j | i <= j < |prog| && !Absorbed(prog, j)
        ensures 0 <= OutIndex(c.records, i, j) < |c.out| && c.out[OutIndex(c.records, i, j)] == Folded(prog, j)
      {
        if j != i {
          assert n <= j;
        }
      }
      forall j1, j2 | i <= j1 < j2 < |prog| && !Absorbed(prog, j1) && !Absorbed(prog, j2)
        ensures OutIndex(c.records, i, j1) < OutIndex(c.records, i, j2)
      {
        assert n <= j2;
        if j1 != i {
          assert n <= j1;
        }
      }
    }
  }

  /** Output index `p` of the scan started at `i` is the place of some run
      start of the input. */
  ghost predicate Covered(prog: seq<Instruction>, records: seq<OptimizedBlock>, i: int, p: int)
  {
    exists j :: i <= j < |prog| && !Absorbed(prog, j) && OutIndex(records, i, j) == p
  }

  /** Every instruction of the compressed stream comes from a run start. */
  lemma {:induction false} CompressCovers(prog: seq<Instruction>, i: nat)
    requires i <= |prog| && !Absorbed(prog, i)
    ensures var c := Compress(prog, i);
            forall p :: 0 <= p < |c.out| ==> Covered(prog, c.records, i, p)
    decreases |prog| - i
  {
    if i < |prog| {
      var c := Compress(prog, i);
      CompressRecords(prog, i);
      var n := if Compressible(prog, i) then i + RunLength(prog, i) else i + 1;
      var rest := Compress(prog, n);
      CompressCovers(prog, n);
      CompressRecords(prog, n);
      assert c.out == [Folded(prog, i)] + rest.out;
      forall p | 0 <= p < |c.out|
        ensures Covered(prog, c.records, i, p)
      {
        if p == 0 {
          assert Removed(c.records, i) == 0 by {
            forall q | 0 <= q < |c.records| ensures i <= c.records[q].startIndex + c.records[q].length {
              assert RecordOk(prog, i, c.records[q]);
            }
            RemovedNone(c.records, i);
          }
          assert OutIndex(c.records, i, i) == p;
        } else {
          assert Covered(prog, rest.records, n, p - 1);
          var j :| n <= j < |prog| && !Absorbed(prog, j) && OutIndex(rest.records, n, j) == p - 1;
          if Compressible(prog, i) {
            assert c.records[1..] == rest.records;
          }
          assert OutIndex(c.records, i, j) == p;
        }
      }
    }
  }

  /** The compressed stream has no foldable run left: runs were maximal. */
  lemma {:induction false} CompressMaximal(prog: seq<Instruction>, i: nat)
    requires i <= |prog|
    ensures NoRuns(Compress(prog, i).out)
    ensures i < |prog| ==> |Compress(prog, i).out| > 0 && Compress(prog, i).out[0].name == prog[i].name
    decreases |prog| - i
  {
    if i < |prog| {
      var n := if Compressible(prog, i) then i + RunLength(prog, i) else i + 1;
      CompressMaximal(prog, n);
      var c := Compress(prog, i);
      var rest := Compress(prog, n);
      assert c.out == [Folded(prog, i)] + rest.out;
      forall p | 0 <= p < |c.out| - 1 && CanBeOptimized(c.out[p])
        ensures c.out[p + 1].name != c.out[p].name
      {
        if p > 0 {
          assert c.out[p] == rest.out[p - 1] && c.out[p + 1] == rest.out[p];
        }
      }
    }
  }

  /** A stream without runs is copied by the scan and yields no records. */
  lemma {:induction false} CompressNoRuns(prog: seq<Instruction>, i: nat)
    requires i <= |prog| && NoRuns(prog)
    ensures Compress(prog, i) == Compressed(prog[i..], [])
    decreases |prog| - i
  {
    if i < |prog| {
      assert !Compressible(prog, i);
      CompressNoRuns(prog, i + 1);
      assert prog[i..] == [prog[i]] + prog[i + 1..];
    }
  }

  /** When the target is not inside a compressed run, the two conditions of
      `recalculateJumps` reduce to "the whole run lies before the target". */
  lemma {:induction false} ShiftIsRemoved(prog: seq<Instruction>, records: seq<OptimizedBlock>, idx: int, v: int)
    requires forall q :: 0 <= q < |records| ==> RecordOk(prog, 0, records[q])
    requires !Absorbed(prog, v)
    ensures Shift(records, idx, v) == Removed(records, v)
    decreases |records|
  {
    if records != [] {
      var rec := records[0];
      assert RecordOk(prog, 0, rec);
      assert !(rec.startIndex < v <= rec.startIndex + rec.length);
      ShiftIsRemoved(prog, records[1..], idx, v);
    }
  }

  // ----- The optimizer -----

  /** Where `OptimizeInstructions` places input index `j`. */
  function Position(prog: seq<Instruction>, j: int): int
  {
    OutIndex(Compress(prog, 0).records, 0, j)
  }

  /** Every jump of the input whose target is not inside a compressed run
      (in particular, a jump whose target is a jump) ends up at its
      `Position`, retargeted to the `Position` of its original target. */
  lemma JumpTargetsFollow(prog: seq<Instruction>, j: nat)
    requires j < |prog| && IsJump(prog[j]) && !Absorbed(prog, prog[j].value)
    ensures var r := OptimizeInstructions(prog);
            && 0 <= Position(prog, j) < |r|
            && r[Position(prog, j)] == prog[j].(value := Position(prog, prog[j].value))
  {
    var c := Compress(prog, 0);
    CompressRecords(prog, 0);
    CompressPlacement(prog, 0);
    ShiftIsRemoved(prog, c.records, Position(prog, j), prog[j].value);
  }

  /** `OptimizeInstructions`: compress, then remap jump targets. The
      result never holds a foldable run. */
  function OptimizeInstructions(prog: seq<Instruction>): (r: seq<Instruction>)
    ensures |r| == |prog| - TotalLength(Compress(prog, 0).records)
    ensures NoRuns(r)
  {
    var c := Compress(prog, 0);
    CompressRecords(prog, 0);
    CompressMaximal(prog, 0);
    RecalculateJumps(c.out, c.records)
  }

  /** Each run start of the input that is not a jump ends up at its
      `Position` in folded form: copied unchanged unless it begins a run of
      two or more, which becomes one instruction whose operand is the run
      length. Run starts keep their order. */
  lemma OptimizePlacement(prog: seq<Instruction>)
    ensures var r := OptimizeInstructions(prog);
            && (forall j :: 0 <= j < |prog| && !Absorbed(prog, j) && !IsJump(prog[j]) ==>
                  0 <= Position(prog, j) < |r| && r[Position(prog, j)] == Folded(prog, j))
            && (forall j1, j2 :: 0 <= j1 < j2 < |prog| && !Absorbed(prog, j1) && !Absorbed(prog, j2) ==>
                  Position(prog, j1) < Position(prog, j2))
  {
    CompressPlacement(prog, 0);
  }

  /** Every instruction of the optimized stream is the place of a run start
      of the input and carries its opcode. */
  lemma OptimizeCovers(prog: seq<Instruction>, p: int)
    requires 0 <= p < |OptimizeInstructions(prog)|
    ensures exists j :: 0 <= j < |prog| && !Absorbed(prog, j) && Position(prog, j) == p
                        && OptimizeInstructions(prog)[p].name == prog[j].name
  {
    var c := Compress(prog, 0);
    CompressCovers(prog, 0);
    CompressPlacement(prog, 0);
    assert Covered(prog, c.records, 0, p);
    var j :| 0 <= j < |prog| && !Absorbed(prog, j) && OutIndex(c.records, 0, j) == p;
    assert OptimizeInstructions(prog)[p].name == c.out[p].name == Folded(prog, j).name;
  }

  /** The jump at output index `p` comes from a jump of the input at a run
      start and its partner is that input jump's partner, relocated. */
  lemma PairedAtOptimized(prog: seq<Instruction>, p: int)
    requires Paired(prog)
    requires 0 <= p < |OptimizeInstructions(prog)|
    ensures PairedAt(OptimizeInstructions(prog), p)
  {
    var r := OptimizeInstructions(prog);
    OptimizePlacement(prog);
    OptimizeCovers(prog, p);
    var j :| 0 <= j < |prog| && !Absorbed(prog, j) && Position(prog, j) == p && r[p].name == prog[j].name;
    if IsJump(prog[j]) {
      assert PairedAt(prog, j);
      var v := prog[j].value;
      JumpTargetsFollow(prog, j);
      JumpTargetsFollow(prog, v);
    }
  }

  /** Positions of run starts reflect the order of the input. */
  lemma PositionReflectsOrder(prog: seq<Instruction>, a: int, b: int)
    requires 0 <= a < |prog| && 0 <= b < |prog| && !Absorbed(prog, a) && !Absorbed(prog, b)
    requires Position(prog, a) < Position(prog, b)
    ensures a < b
  {
    if b < a {
      OptimizePlacement(prog);
    }
  }

  lemma NestedPairOptimized(prog: seq<Instruction>, p1: int, p2: int)
    requires Paired(prog) && Nested(prog) && Paired(OptimizeInstructions(prog))
    requires var r := OptimizeInstructions(prog);
             0 <= p1 < p2 < |r| && r[p1].name == JumpIfZero && r[p2].name == JumpIfZero && p2 < r[p1].value
    ensures OptimizeInstructions(prog)[p2].value < OptimizeInstructions(prog)[p1].value
  {
    var r := OptimizeInstructions(prog);
    OptimizePlacement(prog);
    OptimizeCovers(prog, p1);
    var j1 :| 0 <= j1 < |prog| && !Absorbed(prog, j1) && Position(prog, j1) == p1 && r[p1].name == prog[j1].name;
    OptimizeCovers(prog, p2);
    var j2 :| 0 <= j2 < |prog| && !Absorbed(prog, j2) && Position(prog, j2) == p2 && r[p2].name == prog[j2].name;
    assert PairedAt(prog, j1) && PairedAt(prog, j2);
    JumpTargetsFollow(prog, j1);
    JumpTargetsFollow(prog, j2);
    var v1 := prog[j1].value;
    PositionReflectsOrder(prog, j1, j2);
    PositionReflectsOrder(prog, j2, v1);
  }

  /** Bracket pairing survives optimization: every `JumpIfZero` of the
      result still points at a later `JumpUnlessZero` pointing back at it,
      and the other way round; properly nested brackets stay nested. */
  lemma OptimizePreservesPairing(prog: seq<Instruction>)
    requires Paired(prog)
    ensures Paired(OptimizeInstructions(prog))
    ensures Nested(prog) ==> Nested(OptimizeInstructions(prog))
  {
    var r := OptimizeInstructions(prog);
    forall p | 0 <= p < |r| ensures PairedAt(r, p) {
      PairedAtOptimized(prog, p);
    }
    if Nested(prog) {
      forall p1, p2 | 0 <= p1 < p2 < |r| && r[p1].name == JumpIfZero && r[p2].name == JumpIfZero && p2 < r[p1].value
        ensures r[p2].value < r[p1].value
      {
        NestedPairOptimized(prog, p1, p2);
      }
    }
  }

  /** A stream without foldable runs is left exactly as it is. */
  lemma OptimizeNoRunsIdentity(prog: seq<Instruction>)
    requires NoRuns(prog)
    ensures OptimizeInstructions(prog) == prog
  {
    CompressNoRuns(prog, 0);
    assert prog[0..] == prog;
  }

  /** Optimizing an optimized stream changes nothing. */
  lemma OptimizeIdempotent(prog: seq<Instruction>)
    ensures OptimizeInstructions(OptimizeInstructions(prog)) == OptimizeInstructions(prog)
  {
    OptimizeNoRunsIdentity(OptimizeInstructions(prog));
  }

  /** The optimizer introduces no opcode the input did not have; in
      particular it never produces `Clear`. */
  lemma NoOpcodeIntroduced(prog: seq<Instruction>, op: Opcode)
    requires forall j :: 0 <= j < |prog| ==> prog[j].name != op
    ensures forall p :: 0 <= p < |OptimizeInstructions(prog)| ==> OptimizeInstructions(prog)[p].name != op
  {
    forall p | 0 <= p < |OptimizeInstructions(prog)| ensures OptimizeInstructions(prog)[p].name != op {
      OptimizeCovers(prog, p);
    }
  }
}
