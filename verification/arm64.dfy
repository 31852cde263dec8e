/**
 * The AArch64 encoders of jit/compiler_darwin_arm64.go: the 12-bit
 * immediate ADD/SUB of the "Add/subtract (immediate)" class and the 19-bit
 * signed CBZ/CBNZ of the "Compare and branch (immediate)" class (chapter C4,
 * "A64 Instruction Set Encoding", of the Arm Architecture Reference Manual),
 * with a decoder for each class that serves as the encoder's inverse.
 *
 * Words are modelled as integers in 0 .. 2^32-1 and bytes as integers in
 * 0 .. 255. Go's `uint32(n)` is `n` modulo 2^32; `n & 0x1F` and
 * `w & 0x7FFFF` keep the low 5 and 19 bits, which for the two's complement
 * of any integer is the non-negative remainder modulo 32 and 2^19; and
 * because every field the compiler ORs into a word occupies bits the others
 * leave clear, each `|` of the source is a sum here.
 */
module Arm64 {
  import opened Wrappers
  import opened Integers

  /** `add Xd, Xn, #0`: sf = 1, op = 0, S = 0, sh = 0. */
  const OpcodeAdd: uint32 := 0x9100_0000
  /** `sub Xd, Xn, #0`: sf = 1, op = 1, S = 0, sh = 0. */
  const OpcodeSub: uint32 := 0xd100_0000
  /** `cbz Wt, #0`: sf = 0, op = 0. */
  const OpcodeCbz: uint32 := 0x3400_0000
  /** `cbnz Wt, #0`: sf = 0, op = 1. */
  const OpcodeCbnz: uint32 := 0x3500_0000

  /** The compiler passes only these base opcodes to its two encoders. */
  datatype MathOp = Add | Sub
  datatype BranchOp = Cbz | Cbnz

  function MathOpcode(op: MathOp): uint32
  {
    match op
    case Add => OpcodeAdd
    case Sub => OpcodeSub
  }

  function BranchOpcode(op: BranchOp): uint32
  {
    match op
    case Cbz => OpcodeCbz
    case Cbnz => OpcodeCbnz
  }

  datatype EncodeError = ImmediateOutOfRange | OffsetOutOfRange

  function EncodeMessage(e: EncodeError): string
  {
    match e
    case ImmediateOutOfRange => "immediate out of range"
    case OffsetOutOfRange => "offset is out of range for a jump"
  }

  // ----- Integer facts -----

  /** Go's `uint32(n)`: the low 32 bits of the two's complement of `n`. */
  function Uint32(n: int): (w: uint32)
    ensures 0 <= n ==> w <= n
    ensures 0 <= n < 0x1_0000_0000 ==> w == n
    ensures -0x1_0000_0000 <= n < 0 ==> w == n + 0x1_0000_0000
  {
    n % 0x1_0000_0000
  }

  /** Go's `/` on integers, which truncates toward zero: the remainder
      takes the sign of the dividend. */
  function TruncDiv(a: int, b: int): (q: int)
    requires b > 0
    ensures 0 <= a ==> 0 <= a - q * b < b
    ensures a < 0 ==> -b < a - q * b <= 0
  {
    if a >= 0 then a / b else -((-a) / b)
  }

  // ----- Byte order -----

  /** `binary.LittleEndian`: the four bytes of a word, least significant
      first. */
  function LittleEndian(w: uint32): (b: seq<byte>)
    ensures |b| == 4
    ensures FromLittleEndian(b) == w
  {
    [w % 0x100, (w / 0x100) % 0x100, ((w / 0x100) / 0x100) % 0x100, ((w / 0x100) / 0x100) / 0x100]
  }

  function FromLittleEndian(b: seq<byte>): uint32
    requires |b| == 4
  {
    b[0] as int + 0x100 * (b[1] as int + 0x100 * (b[2] as int + 0x100 * b[3] as int))
  }

  lemma LittleEndianOfBytes(b: seq<byte>)
    requires |b| == 4
    ensures LittleEndian(FromLittleEndian(b)) == b
  {
    var w := FromLittleEndian(b);
    var w1 := b[1] as int + 0x100 * (b[2] as int + 0x100 * b[3] as int);
    var w2 := b[2] as int + 0x100 * b[3] as int;
    Split(w, w1, b[0], 0x100);
    Split(w1, w2, b[1], 0x100);
    Split(w2, b[3], b[2], 0x100);
  }

  // ----- Add/subtract (immediate) -----

  /** The fields of the "Add/subtract (immediate)" class,
      sf:op:S:100010:sh:imm12:Rn:Rd from bit 31 down. */
  datatype AddSubImmediate = AddSubImmediate(
    is64: bool, subtract: bool, setFlags: bool, shifted: bool, imm12: int, rn: int, rd: int)

  function DecodeAddSubImmediate(w: uint32): Option<AddSubImmediate>
  {
    var top := w / 0x40_0000;
    if (top / 2) % 0x40 == 0x22 then
      Some(AddSubImmediate(
        top / 0x200 == 1, (top / 0x100) % 2 == 1, (top / 0x80) % 2 == 1, top % 2 == 1,
        (w / 0x400) % 0x1000, (w / 0x20) % 0x20, w % 0x20))
    else None
  }

  /** Lines 197-204: the base opcode with imm12 in bits 21:10 and the
      register in both Rn (bits 9:5) and Rd (bits 4:0). */
  function MathWord(op: MathOp, register: int, immediate: int): uint32
    requires 0 <= immediate < 0x1000
  {
    MathOpcode(op) + immediate * 0x400 + (register % 0x20) * 0x20 + register % 0x20
  }

  /** Where the fields of `MathWord` sit in the word. */
  lemma MathWordFields(op: MathOp, register: int, immediate: int)
    requires 0 <= immediate < 0x1000
    ensures var w := MathWord(op, register, immediate);
            && w / 0x40_0000 == MathOpcode(op) / 0x40_0000
            && (w / 0x400) % 0x1000 == immediate
            && (w / 0x20) % 0x20 == register % 0x20
            && w % 0x20 == register % 0x20
  {
    var base, r := MathOpcode(op), register % 0x20;
    var w := MathWord(op, register, immediate);
    var top, mid := base / 0x40_0000, base / 0x400 + immediate;
    assert base == top * 0x40_0000 && base / 0x400 == top * 0x1000;
    assert w / 0x40_0000 == top by {
      Split(w, top, immediate * 0x400 + r * 0x21, 0x40_0000);
    }
    assert (w / 0x400) % 0x1000 == immediate by {
      Split(w, mid, r * 0x21, 0x400);
      Split(mid, top, immediate, 0x1000);
    }
    assert (w / 0x20) % 0x20 == r && w % 0x20 == r by {
      Split(w, mid * 0x20 + r, r, 0x20);
      Split(mid * 0x20 + r, mid, r, 0x20);
    }
  }

  lemma MathWordDecodes(op: MathOp, register: int, immediate: int)
    requires 0 <= immediate < 0x1000
    ensures DecodeAddSubImmediate(MathWord(op, register, immediate))
              == Some(AddSubImmediate(true, op == Sub, false, false, immediate, register % 32, register % 32))
  {
    MathWordFields(op, register, immediate);
  }

  /** The encoder of `encodeAndAppendMathInstruction`: an immediate outside
      0 .. 4095 is refused; any other is placed in the imm12 field with the
      register as both source and destination, so that the word decodes
      back to exactly that 64-bit add or subtract. */
  function EncodeMath(op: MathOp, register: int, immediate: int): (r: Result<uint32, EncodeError>)
    ensures r.Err? <==> immediate < 0 || immediate >= 0x1000
    ensures r.Err? ==> r.error == ImmediateOutOfRange
    ensures r.Ok? ==>
              DecodeAddSubImmediate(r.value)
              == Some(AddSubImmediate(true, op == Sub, false, false, immediate, register % 32, register % 32))
  {
    if immediate < 0 || immediate >= 0x1000 then Err(ImmediateOutOfRange)
    else
      MathWordDecodes(op, register, immediate);
      Ok(MathWord(op, register, immediate))
  }

  /** `encodeAndAppendMathInstruction`: on success exactly four bytes, the
      little-endian encoding of the word, are appended and the code before
      them is kept; on failure the code is left as it was. */
  function AppendMath(code: seq<byte>, op: MathOp, register: int, immediate: int)
    : (r: Result<seq<byte>, EncodeError>)
    ensures r.Err? <==> immediate < 0 || immediate >= 0x1000
    ensures r.Err? ==> r.error == ImmediateOutOfRange
    ensures r.Ok? ==> |r.value| == |code| + 4 && r.value[..|code|] == code
    ensures r.Ok? ==>
              DecodeAddSubImmediate(FromLittleEndian(r.value[|code|..]))
              == Some(AddSubImmediate(true, op == Sub, false, false, immediate, register % 32, register % 32))
  {
    var w :- EncodeMath(op, register, immediate);
    assert (code + LittleEndian(w))[|code|..] == LittleEndian(w);
    Ok(code + LittleEndian(w))
  }

  // ----- Compare and branch (immediate) -----

  /** The fields of the "Compare and branch (immediate)" class,
      sf:011010:op:imm19:Rt from bit 31 down, with imm19 read as a signed
      count of instructions. */
  datatype CompareBranch = CompareBranch(is64: bool, nonZero: bool, imm19: int, rt: int)

  /** The two's-complement value of a 19-bit field. */
  function Signed19(f: int): int
  {
    if f >= 0x4_0000 then f - 0x8_0000 else f
  }

  function DecodeCompareBranch(w: uint32): Option<CompareBranch>
  {
    var top := w / 0x100_0000;
    if (top / 2) % 0x40 == 0x1A then
      Some(CompareBranch(top / 0x80 == 1, top % 2 == 1, Signed19((w / 0x20) % 0x8_0000), w % 0x20))
    else None
  }

  /** Lines 223-227: the base opcode with the low 19 bits of the word
      offset in bits 23:5 and the register in bits 4:0. */
  function BranchWord(op: BranchOp, register: int, x: int): uint32
  {
    BranchOpcode(op) + (Uint32(x) % 0x8_0000) * 0x20 + register % 0x20
  }

  /** Where the fields of `BranchWord` sit in the word. */
  lemma BranchWordFields(op: BranchOp, register: int, x: int)
    ensures var w := BranchWord(op, register, x);
            && w / 0x100_0000 == BranchOpcode(op) / 0x100_0000
            && (w / 0x20) % 0x8_0000 == Uint32(x) % 0x8_0000
            && w % 0x20 == register % 0x20
  {
    var base, r, f := BranchOpcode(op), register % 0x20, Uint32(x) % 0x8_0000;
    var w := BranchWord(op, register, x);
    var top := base / 0x100_0000;
    assert base == top * 0x100_0000 && base / 0x20 == top * 0x8_0000;
    assert w / 0x100_0000 == top by {
      Split(w, top, f * 0x20 + r, 0x100_0000);
    }
    assert (w / 0x20) % 0x8_0000 == f && w % 0x20 == r by {
      Split(w, top * 0x8_0000 + f, r, 0x20);
      Split(top * 0x8_0000 + f, top, f, 0x8_0000);
    }
  }

  /** A word offset that fits the signed 19-bit field reads back as
      itself. */
  lemma BranchWordDecodes(op: BranchOp, register: int, x: int)
    requires -0x4_0000 <= x < 0x4_0000
    ensures DecodeCompareBranch(BranchWord(op, register, x))
              == Some(CompareBranch(false, op == Cbnz, x, register % 32))
  {
    var f := Uint32(x) % 0x8_0000;
    assert x >= 0 ==> f == x;
    assert x < 0 ==> f == x + 0x8_0000;
    BranchWordFields(op, register, x);
  }

  /** Bit 18 of the two's complement of `x`, the test of line 214. */
  predicate Bit18(x: int)
  {
    (x / 0x4_0000) % 2 == 1
  }

  lemma Bit18IsHighHalf(x: int)
    ensures Bit18(x) <==> x % 0x8_0000 >= 0x4_0000
  {
    var q, m := x / 0x8_0000, x % 0x8_0000;
    Split(x, 2 * q + m / 0x4_0000, m % 0x4_0000, 0x4_0000);
    Split(2 * q + m / 0x4_0000, q, m / 0x4_0000, 2);
  }

  /** Lines 214-216: when bit 18 is set, every bit above it is set, which
      leaves the value `x mod 2^19 - 2^19`. */
  function SignExtendAsWritten(x: int): (r: int)
    ensures -0x4_0000 <= x < 0x4_0000 ==> r == x
    ensures (r - x) % 0x8_0000 == 0
  {
    Bit18IsHighHalf(x);
    if Bit18(x) then x % 0x8_0000 - 0x8_0000 else x
  }

  /** The as-written check refuses exactly the word offsets whose bit 18 is
      clear and that lie outside the signed 19-bit range. */
  lemma SignExtendedInRange(x: int)
    ensures var e := SignExtendAsWritten(x);
            (e < -0x4_0000 || e >= 0x4_0000) <==> x % 0x8_0000 < 0x4_0000 && (x < 0 || x >= 0x4_0000)
  {
    Bit18IsHighHalf(x);
  }

  /** `encodeBranchInstruction` as written: the range check runs on the
      sign-extended offset, so it refuses only an offset whose bit 18 is
      clear and that lies outside the 19-bit range; every accepted offset is
      encoded as the value in -2^18 .. 2^18-1 that agrees with it modulo
      2^19. */
  function EncodeBranchAsWritten(op: BranchOp, register: int, offset: int): (r: Result<uint32, EncodeError>)
    ensures var x := TruncDiv(offset, 4);
            r.Err? <==> x % 0x8_0000 < 0x4_0000 && (x < 0 || x >= 0x4_0000)
    ensures r.Err? ==> r.error == OffsetOutOfRange
    ensures r.Ok? ==>
              var d := DecodeCompareBranch(r.value);
              && d.Some? && !d.value.is64 && (d.value.nonZero <==> op == Cbnz) && d.value.rt == register % 32
              && -0x4_0000 <= d.value.imm19 < 0x4_0000
              && (d.value.imm19 - TruncDiv(offset, 4)) % 0x8_0000 == 0
    ensures r.Ok? ==>
              DecodeCompareBranch(r.value)
              == Some(CompareBranch(false, op == Cbnz, SignExtendAsWritten(TruncDiv(offset, 4)), register % 32))
  {
    var x := TruncDiv(offset, 4);
    var ext := SignExtendAsWritten(x);
    SignExtendedInRange(x);
    if ext < -0x4_0000 || ext >= 0x4_0000 then Err(OffsetOutOfRange)
    else
      BranchWordDecodes(op, register, ext);
      Ok(BranchWord(op, register, ext))
  }

  /** The branch encoder with the range check made on the word offset
      itself: an offset that does not fit the signed 19-bit field is
      refused, and every accepted one decodes back to itself. */
  function EncodeBranch(op: BranchOp, register: int, offset: int): (r: Result<uint32, EncodeError>)
    ensures r.Err? <==> TruncDiv(offset, 4) < -0x4_0000 || TruncDiv(offset, 4) >= 0x4_0000
    ensures r.Err? ==> r.error == OffsetOutOfRange
    ensures r.Ok? ==>
              DecodeCompareBranch(r.value) == Some(CompareBranch(false, op == Cbnz, TruncDiv(offset, 4), register % 32))
  {
    var x := TruncDiv(offset, 4);
    if x < -0x4_0000 || x >= 0x4_0000 then Err(OffsetOutOfRange)
    else
      BranchWordDecodes(op, register, x);
      Ok(BranchWord(op, register, x))
  }

  /** The two encoders agree wherever the word offset fits the field. */
  lemma EncodersAgreeInRange(op: BranchOp, register: int, offset: int)
    requires -0x4_0000 <= TruncDiv(offset, 4) < 0x4_0000
    ensures EncodeBranchAsWritten(op, register, offset) == EncodeBranch(op, register, offset)
  {
  }

  /** Which range check the branch encoder makes: the one of lines
      213-221, on the sign-extended word offset, or the corrected one, on
      the word offset itself. */
  datatype Relocation = AsWritten | Corrected

  /** The signed 19-bit count a relocation writes for word offset `x`. */
  function Relocated(rel: Relocation, x: int): int
  {
    match rel
    case AsWritten => SignExtendAsWritten(x)
    case Corrected => x
  }

  predicate InBranchRange(x: int)
  {
    -0x4_0000 <= x < 0x4_0000
  }

  /** The branch encoder the compiler calls, under either range check: it
      refuses an offset whose relocated count does not fit the field, and
      writes the relocated count otherwise. */
  function EncodeRelocated(rel: Relocation, op: BranchOp, register: int, offset: int): (r: Result<uint32, EncodeError>)
    ensures r.Err? <==> !InBranchRange(Relocated(rel, TruncDiv(offset, 4)))
    ensures r.Err? ==> r.error == OffsetOutOfRange
    ensures r.Ok? ==>
              DecodeCompareBranch(r.value)
              == Some(CompareBranch(false, op == Cbnz, Relocated(rel, TruncDiv(offset, 4)), register % 32))
  {
    match rel
    case AsWritten =>
      SignExtendedInRange(TruncDiv(offset, 4));
      EncodeBranchAsWritten(op, register, offset)
    case Corrected => EncodeBranch(op, register, offset)
  }

  /** A relocated count lands on the word offset exactly when the
      relocation keeps it: always for the corrected check, and for the
      check as written exactly when the offset fits the field. */
  lemma RelocationKeepsCount(rel: Relocation, x: int)
    requires InBranchRange(Relocated(rel, x))
    ensures Relocated(rel, x) == x <==> rel == Corrected || InBranchRange(x)
  {
  }

  /** A forward jump of exactly 2^18 instructions, one past the largest the
      field holds, passes the check as written and is encoded as a backward
      jump of 2^18 instructions; the corrected encoder refuses it. */
  lemma SignExtensionBeforeRangeCheck()
    ensures EncodeBranchAsWritten(Cbz, 11, 0x10_0000).Ok?
    ensures DecodeCompareBranch(EncodeBranchAsWritten(Cbz, 11, 0x10_0000).value).value.imm19 == -0x4_0000
    ensures EncodeBranch(Cbz, 11, 0x10_0000) == Err(OffsetOutOfRange)
  {
    assert TruncDiv(0x10_0000, 4) == 0x4_0000;
    assert SignExtendAsWritten(0x4_0000) == -0x4_0000;
    BranchWordDecodes(Cbz, 11, -0x4_0000);
  }
}
