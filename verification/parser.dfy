/**
 * The front end (parser/parser.go): characters to opcodes, everything else
 * dropped, and `[`/`]` pairs resolved to absolute instruction indices with a
 * depth-indexed stack of open brackets.
 */
module Parser {
  import opened Wrappers
  import opened Instructions

  /** The two unmatched-bracket errors. */
  datatype ParseError = NoMatchingOpen | NoMatchingClose

  function Message(e: ParseError): string
  {
    match e
    case NoMatchingOpen => "no matching '[' found"
    case NoMatchingClose => "no matching ']' found"
  }

  /** The source character of each opcode the front end recognises. */
  function Symbol(op: Opcode): Option<char>
  {
    match op
    case MoveRight => Some('>')
    case MoveLeft => Some('<')
    case Increment => Some('+')
    case Decrement => Some('-')
    case Write => Some('.')
    case Read => Some(',')
    case JumpIfZero => Some('[')
    case JumpUnlessZero => Some(']')
    case _ => None
  }

  /** `instructionTypeFromCharacter`: the eight command characters map to
      their opcodes and every other character to `Unknown`. */
  function OpcodeOfChar(c: char): (op: Opcode)
    ensures op == Unknown <==> c !in "><+-.,[]"
    ensures op != Unknown ==> Symbol(op) == Some(c)
    ensures op != Clear
  {
    match c
    case '>' => MoveRight
    case '<' => MoveLeft
    case '+' => Increment
    case '-' => Decrement
    case '.' => Write
    case ',' => Read
    case '[' => JumpIfZero
    case ']' => JumpUnlessZero
    case _ => Unknown
  }

  /** Every recognised opcode is read back from its own symbol. */
  lemma SymbolRoundTrip(op: Opcode)
    requires Symbol(op).Some?
    ensures OpcodeOfChar(Symbol(op).value) == op
  {
  }

  // ----- Reference definitions the parser is measured against -----

  function Delta(c: char): int
  {
    if c == '[' then 1 else if c == ']' then -1 else 0
  }

  /** Open brackets minus close brackets in `s`. */
  function Depth(s: string): int
  {
    if s == [] then 0 else Depth(s[..|s| - 1]) + Delta(s[|s| - 1])
  }

  /** No prefix of `s` closes more brackets than it opened. */
  ghost predicate NeverNegative(s: string)
  {
    forall p :: 0 <= p <= |s| ==> Depth(s[..p]) >= 0
  }

  /** The opcodes of the recognised characters of `s`, in order. */
  function Recognised(s: string): seq<Opcode>
  {
    if s == [] then []
    else
      var op := OpcodeOfChar(s[|s| - 1]);
      Recognised(s[..|s| - 1]) + (if op == Unknown then [] else [op])
  }

  lemma PrefixStep(s: string, n: nat)
    requires n < |s|
    ensures Depth(s[..n + 1]) == Depth(s[..n]) + Delta(s[n])
    ensures Recognised(s[..n + 1]) ==
              Recognised(s[..n]) + (if OpcodeOfChar(s[n]) == Unknown then [] else [OpcodeOfChar(s[n])])
    ensures NeverNegative(s[..n]) && Depth(s[..n + 1]) >= 0 ==> NeverNegative(s[..n + 1])
    ensures NeverNegative(s) ==> NeverNegative(s[..n + 1])
  {
    assert s[..n + 1][..n] == s[..n];
    var s' := s[..n + 1];
    if NeverNegative(s[..n]) && Depth(s') >= 0 {
      forall p | 0 <= p <= |s'| ensures Depth(s'[..p]) >= 0 {
        if p <= n {
          assert s'[..p] == s[..n][..p];
        } else {
          assert s'[..p] == s';
        }
      }
    }
    if NeverNegative(s) {
      forall p | 0 <= p <= |s'| ensures Depth(s'[..p]) >= 0 {
        assert s'[..p] == s[..p];
      }
    }
  }

  // ----- The scan -----

  /** Every open bracket on the stack is a `JumpIfZero` of `out`, and the
      stack lists them from outermost to innermost. */
  ghost predicate StackOk(stack: seq<nat>, out: seq<Instruction>)
  {
    && (forall d :: 0 <= d < |stack| ==> stack[d] < |out| && out[stack[d]].name == JumpIfZero)
    && (forall d, e :: 0 <= d < e < |stack| ==> stack[d] < stack[e])
  }

  /** Every bracket already closed is paired with its partner. */
  ghost predicate ClosedOk(stack: seq<nat>, out: seq<Instruction>)
  {
    forall k :: 0 <= k < |out| ==>
      && (out[k].name == JumpIfZero && k !in stack ==>
            k < out[k].value < |out| && out[out[k].value] == Instruction(JumpUnlessZero, k))
      && (out[k].name == JumpUnlessZero ==>
            0 <= out[k].value < k && out[k].value !in stack && out[out[k].value] == Instruction(JumpIfZero, k))
  }

  /** Closed pairs neither enclose an open bracket nor cross each other. */
  ghost predicate NestOk(stack: seq<nat>, out: seq<Instruction>)
  {
    && (forall k, d :: 0 <= k < |out| && 0 <= d < |stack| && out[k].name == JumpIfZero && k !in stack ==>
          !(k < stack[d] < out[k].value))
    && (forall i, k :: (0 <= i < k < |out| && out[i].name == JumpIfZero && out[k].name == JumpIfZero
          && i !in stack && k !in stack && k < out[i].value)
          ==> out[k].value < out[i].value)
  }

  /** What holds after the first `n` characters have been scanned. */
  ghost predicate ScanInv(input: string, n: nat, stack: seq<nat>, out: seq<Instruction>, unit: int)
  {
    && n <= |input|
    && Names(out) == Recognised(input[..n])
    && NeverNegative(input[..n])
    && |stack| == Depth(input[..n])
    && (forall k :: 0 <= k < |out| && !IsJump(out[k]) ==> out[k].value == unit)
    && StackOk(stack, out)
    && ClosedOk(stack, out)
    && NestOk(stack, out)
  }

  lemma PlainStep(input: string, n: nat, stack: seq<nat>, out: seq<Instruction>, unit: int)
    requires ScanInv(input, n, stack, out, unit) && n < |input|
    requires OpcodeOfChar(input[n]) != JumpIfZero && OpcodeOfChar(input[n]) != JumpUnlessZero
    ensures var op := OpcodeOfChar(input[n]);
            ScanInv(input, n + 1, stack, if op == Unknown then out else out + [Instruction(op, unit)], unit)
  {
    PrefixStep(input, n);
    var op := OpcodeOfChar(input[n]);
    var out' := if op == Unknown then out else out + [Instruction(op, unit)];
    assert Names(out') == Names(out) + (if op == Unknown then [] else [op]);
  }

  lemma PushStackOk(stack: seq<nat>, out: seq<Instruction>)
    requires StackOk(stack, out)
    ensures StackOk(stack + [|out|], out + [Instruction(JumpIfZero, 0)])
  {
  }

  lemma PushClosedOk(stack: seq<nat>, out: seq<Instruction>)
    requires StackOk(stack, out) && ClosedOk(stack, out)
    ensures ClosedOk(stack + [|out|], out + [Instruction(JumpIfZero, 0)])
  {
    var out', stack' := out + [Instruction(JumpIfZero, 0)], stack + [|out|];
    forall k | 0 <= k < |out'|
      ensures out'[k].name == JumpIfZero && k !in stack' ==>
                k < out'[k].value < |out'| && out'[out'[k].value] == Instruction(JumpUnlessZero, k)
      ensures out'[k].name == JumpUnlessZero ==>
                0 <= out'[k].value < k && out'[k].value !in stack' && out'[out'[k].value] == Instruction(JumpIfZero, k)
    {
      if k < |out| {
        assert (k in stack') == (k in stack);
        assert out'[k] == out[k];
        if out[k].name == JumpUnlessZero {
          assert out[k].value in stack' <==> out[k].value in stack;
        }
      }
    }
  }

  lemma PushNestOk(stack: seq<nat>, out: seq<Instruction>)
    requires StackOk(stack, out) && ClosedOk(stack, out) && NestOk(stack, out)
    ensures NestOk(stack + [|out|], out + [Instruction(JumpIfZero, 0)])
  {
    var out', stack' := out + [Instruction(JumpIfZero, 0)], stack + [|out|];
    forall k | 0 <= k < |out|
      ensures (k in stack') == (k in stack)
    {
    }
  }

  lemma PushStep(input: string, n: nat, stack: seq<nat>, out: seq<Instruction>, unit: int)
    requires ScanInv(input, n, stack, out, unit) && n < |input|
    requires OpcodeOfChar(input[n]) == JumpIfZero
    ensures ScanInv(input, n + 1, stack + [|out|], out + [Instruction(JumpIfZero, 0)], unit)
  {
    PrefixStep(input, n);
    var out' := out + [Instruction(JumpIfZero, 0)];
    assert Names(out') == Names(out) + [JumpIfZero];
    PushStackOk(stack, out);
    PushClosedOk(stack, out);
    PushNestOk(stack, out);
  }

  lemma PopStackOk(stack: seq<nat>, out: seq<Instruction>)
    requires StackOk(stack, out) && |stack| > 0
    ensures var t := stack[|stack| - 1];
            StackOk(stack[..|stack| - 1], out[t := Instruction(JumpIfZero, |out|)] + [Instruction(JumpUnlessZero, t)])
  {
  }

  lemma PopClosedOk(stack: seq<nat>, out: seq<Instruction>)
    requires StackOk(stack, out) && ClosedOk(stack, out) && |stack| > 0
    ensures var t := stack[|stack| - 1];
            ClosedOk(stack[..|stack| - 1], out[t := Instruction(JumpIfZero, |out|)] + [Instruction(JumpUnlessZero, t)])
  {
    var t := stack[|stack| - 1];
    var c := |out|;
    var out' := out[t := Instruction(JumpIfZero, c)] + [Instruction(JumpUnlessZero, t)];
    var stack' := stack[..|stack| - 1];
    assert stack == stack' + [t];
    forall k | 0 <= k < |out'|
      ensures out'[k].name == JumpIfZero && k !in stack' ==>
                k < out'[k].value < |out'| && out'[out'[k].value] == Instruction(JumpUnlessZero, k)
      ensures out'[k].name == JumpUnlessZero ==>
                0 <= out'[k].value < k && out'[k].value !in stack' && out'[out'[k].value] == Instruction(JumpIfZero, k)
    {
      if k == c {
        assert t !in stack';
      } else if k == t {
      } else {
        assert (k in stack) == (k in stack');
        assert out'[k] == out[k];
        if out[k].name == JumpIfZero && k !in stack {
          assert out[k].value != t;
        }
        if out[k].name == JumpUnlessZero {
          assert out[k].value != t;
          assert (out[k].value in stack) == (out[k].value in stack');
        }
      }
    }
  }

  lemma PopNestOk(stack: seq<nat>, out: seq<Instruction>)
    requires StackOk(stack, out) && ClosedOk(stack, out) && NestOk(stack, out) && |stack| > 0
    ensures var t := stack[|stack| - 1];
            NestOk(stack[..|stack| - 1], out[t := Instruction(JumpIfZero, |out|)] + [Instruction(JumpUnlessZero, t)])
  {
    var t := stack[|stack| - 1];
    var c := |out|;
    var out' := out[t := Instruction(JumpIfZero, c)] + [Instruction(JumpUnlessZero, t)];
    var stack' := stack[..|stack| - 1];
    assert stack == stack' + [t];
    forall k | 0 <= k < |out'| && k != t
      ensures (k in stack) == (k in stack')
    {
    }
    forall k, d | 0 <= k < |out'| && 0 <= d < |stack'| && out'[k].name == JumpIfZero && k !in stack'
      ensures !(k < stack'[d] < out'[k].value)
    {
      assert stack[d] < t;
      if k != t {
        assert out'[k] == out[k];
      }
    }
    forall i, k | 0 <= i < k < |out'| && out'[i].name == JumpIfZero && out'[k].name == JumpIfZero
        && i !in stack' && k !in stack' && k < out'[i].value
      ensures out'[k].value < out'[i].value
    {
      if i == t {
        assert out'[k] == out[k];
        assert k !in stack;
      } else if k == t {
        // impossible: a closed pair never encloses the open bracket t
      } else {
        assert out'[i] == out[i] && out'[k] == out[k];
      }
    }
  }

  lemma PopStep(input: string, n: nat, stack: seq<nat>, out: seq<Instruction>, unit: int)
    requires ScanInv(input, n, stack, out, unit) && n < |input|
    requires OpcodeOfChar(input[n]) == JumpUnlessZero && |stack| > 0
    ensures var t := stack[|stack| - 1];
            ScanInv(input, n + 1, stack[..|stack| - 1],
                    out[t := Instruction(JumpIfZero, |out|)] + [Instruction(JumpUnlessZero, t)], unit)
  {
    PrefixStep(input, n);
    var t := stack[|stack| - 1];
    var c := |out|;
    var out' := out[t := Instruction(JumpIfZero, c)] + [Instruction(JumpUnlessZero, t)];
    assert Names(out') == Names(out) + [JumpUnlessZero] by {
      assert Names(out[t := Instruction(JumpIfZero, c)]) == Names(out);
    }
    PopStackOk(stack, out);
    PopClosedOk(stack, out);
    PopNestOk(stack, out);
  }

  /** The loop of `Parse` from character `n` on, with the open brackets on
      `stack` and the instructions produced so far in `out`. */
  function Scan(input: string, n: nat, stack: seq<nat>, out: seq<Instruction>, unit: int)
    : (r: Result<seq<Instruction>, ParseError>)
    requires ScanInv(input, n, stack, out, unit)
    ensures r == Err(NoMatchingOpen) <==> !NeverNegative(input)
    ensures r == Err(NoMatchingClose) <==> NeverNegative(input) && Depth(input) != 0
    ensures r.Ok? ==> && Names(r.value) == Recognised(input)
                      && (forall k :: 0 <= k < |r.value| && !IsJump(r.value[k]) ==> r.value[k].value == unit)
                      && Paired(r.value) && Nested(r.value)
    decreases |input| - n
  {
    if n == |input| then
      assert input[..n] == input;
      if |stack| != 0 then Err(NoMatchingClose)
      else
        assert Paired(out) by {
          forall i | 0 <= i < |out| ensures PairedAt(out, i) {
          }
        }
        Ok(out)
    else
      var op := OpcodeOfChar(input[n]);
      if op == JumpIfZero then
        PushStep(input, n, stack, out, unit);
        Scan(input, n + 1, stack + [|out|], out + [Instruction(JumpIfZero, 0)], unit)
      else if op == JumpUnlessZero then
        if |stack| == 0 then
          PrefixStep(input, n);
          assert Depth(input[..n + 1]) < 0;
          Err(NoMatchingOpen)
        else
          var t := stack[|stack| - 1];
          PopStep(input, n, stack, out, unit);
          Scan(input, n + 1, stack[..|stack| - 1],
               out[t := Instruction(JumpIfZero, |out|)] + [Instruction(JumpUnlessZero, t)], unit)
      else
        PlainStep(input, n, stack, out, unit);
        Scan(input, n + 1, stack, if op == Unknown then out else out + [Instruction(op, unit)], unit)
  }

  /** The parser with the operand it gives non-jump instructions as a
      parameter. */
  function ParseWith(input: string, unit: int): (r: Result<seq<Instruction>, ParseError>)
    ensures r.Ok? <==> NeverNegative(input) && Depth(input) == 0
    ensures r == Err(NoMatchingOpen) <==> !NeverNegative(input)
    ensures r == Err(NoMatchingClose) <==> NeverNegative(input) && Depth(input) > 0
    ensures r.Ok? ==> && Names(r.value) == Recognised(input)
                      && (forall k :: 0 <= k < |r.value| && !IsJump(r.value[k]) ==> r.value[k].value == unit)
                      && Paired(r.value) && Nested(r.value)
  {
    assert input[..0] == [];
    assert NeverNegative(input[..0]) by {
      forall p | 0 <= p <= 0 ensures Depth(input[..0][..p]) >= 0 {
        assert input[..0][..p] == [];
      }
    }
    var r := Scan(input, 0, [], [], unit);
    assert r.Ok? || r == Err(NoMatchingOpen) || r == Err(NoMatchingClose) by {
      if r.Err? {
        assert r == Err(r.error);
        assert r.error == NoMatchingOpen || r.error == NoMatchingClose;
      }
    }
    assert NeverNegative(input) ==> Depth(input) >= 0 by {
      if NeverNegative(input) {
        assert input[..|input|] == input;
      }
    }
    r
  }

  /** `Parser.Parse` as written: non-jump instructions get operand 0. */
  function Parse(input: string): (r: Result<seq<Instruction>, ParseError>)
    ensures r.Ok? <==> NeverNegative(input) && Depth(input) == 0
    ensures r == Err(NoMatchingOpen) <==> !NeverNegative(input)
    ensures r == Err(NoMatchingClose) <==> NeverNegative(input) && Depth(input) > 0
    ensures r.Ok? ==> && Names(r.value) == Recognised(input)
                      && (forall k :: 0 <= k < |r.value| && !IsJump(r.value[k]) ==> r.value[k].value == 0)
                      && Paired(r.value) && Nested(r.value)
  {
    ParseWith(input, 0)
  }

  /** `Parser.Parse` with the operand its tests expect: every non-jump
      instruction stands for one source character, operand 1. */
  function ParseCounted(input: string): (r: Result<seq<Instruction>, ParseError>)
    ensures r.Ok? <==> NeverNegative(input) && Depth(input) == 0
    ensures r == Err(NoMatchingOpen) <==> !NeverNegative(input)
    ensures r == Err(NoMatchingClose) <==> NeverNegative(input) && Depth(input) > 0
    ensures r.Ok? ==> && Names(r.value) == Recognised(input)
                      && (forall k :: 0 <= k < |r.value| && !IsJump(r.value[k]) ==> r.value[k].value == 1)
                      && Paired(r.value) && Nested(r.value)
  {
    ParseWith(input, 1)
  }

  // ----- Sources without brackets -----

  predicate BracketFree(input: string)
  {
    forall i :: 0 <= i < |input| ==> input[i] != '[' && input[i] != ']'
  }

  lemma {:induction false} BracketFreeDepth(input: string)
    requires BracketFree(input)
    ensures Depth(input) == 0
    ensures forall k :: 0 <= k < |Recognised(input)| ==> Recognised(input)[k] != JumpIfZero && Recognised(input)[k] != JumpUnlessZero
  {
    if input != [] {
      var front := input[..|input| - 1];
      assert BracketFree(front) by {
        forall i | 0 <= i < |front| ensures front[i] != '[' && front[i] != ']' {
          assert front[i] == input[i];
        }
      }
      BracketFreeDepth(front);
    }
  }

  /** A source without brackets always parses, to its recognised opcodes
      in order, each carrying the parser's operand. */
  lemma BracketFreeParse(input: string, unit: int)
    requires BracketFree(input)
    ensures ParseWith(input, unit).Ok?
    ensures var ops := Recognised(input);
            ParseWith(input, unit).value == seq(|ops|, k requires 0 <= k < |ops| => Instruction(ops[k], unit))
  {
    BracketFreeDepth(input);
    forall p | 0 <= p <= |input|
      ensures Depth(input[..p]) >= 0
    {
      assert BracketFree(input[..p]) by {
        forall i | 0 <= i < p ensures input[..p][i] != '[' && input[..p][i] != ']' {
          assert input[..p][i] == input[i];
        }
      }
      BracketFreeDepth(input[..p]);
    }
    var ops := Recognised(input);
    var r := ParseWith(input, unit).value;
    assert Names(r) == ops;
    forall k | 0 <= k < |r|
      ensures r[k] == Instruction(ops[k], unit)
    {
      assert r[k].name == ops[k];
    }
  }
}
