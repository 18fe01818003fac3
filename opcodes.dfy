/** The opcode table and the instruction-word decoder of the Intcode interpreter:
    the `Opcodes` and `ParameterMode` enums, the arity of each opcode and
    `parse_opcode`, which splits a packed word into an opcode and two mode digits. */
module Opcodes {
  import opened Wrappers

  /** The nine operations the interpreter knows. */
  datatype Opcode = Add | Mult | Input | Output | JumpIfTrue | JumpIfFalse | LessThan | Equals | Halt

  /** The enum value of each opcode, i.e. the low two decimal digits of its word. */
  function Code(op: Opcode): (c: int)
    ensures 1 <= c <= 99
  {
    match op
    case Add => 1
    case Mult => 2
    case Input => 3
    case Output => 4
    case JumpIfTrue => 5
    case JumpIfFalse => 6
    case LessThan => 7
    case Equals => 8
    case Halt => 99
  }

  /** The enum lookup `Opcodes(v)`: None where the lookup raises. */
  function OpcodeOf(v: int): (r: Option<Opcode>)
    ensures r.Some? ==> Code(r.value) == v
    ensures r.None? ==> forall op: Opcode :: Code(op) != v
  {
    if v == 1 then Some(Add)
    else if v == 2 then Some(Mult)
    else if v == 3 then Some(Input)
    else if v == 4 then Some(Output)
    else if v == 5 then Some(JumpIfTrue)
    else if v == 6 then Some(JumpIfFalse)
    else if v == 7 then Some(LessThan)
    else if v == 8 then Some(Equals)
    else if v == 99 then Some(Halt)
    else None
  }

  /** Every opcode is found again from its value: the enum values are distinct. */
  lemma CodeRoundTrip(op: Opcode)
    ensures OpcodeOf(Code(op)) == Some(op)
  {
  }

  /** How many operands an opcode reads (each one mode-decoded). */
  function ReadCount(op: Opcode): (n: nat)
    ensures n == 0 <==> op == Halt || op == Input
    ensures n == 1 <==> op == Output
    ensures n <= 2
  {
    if op == Halt || op == Input then 0
    else if op == Output then 1
    else 2
  }

  /** Whether an opcode has a write-target parameter after its read operands. */
  predicate HasWrite(op: Opcode)
    ensures HasWrite(op) <==> op in {Input, Add, Mult, LessThan, Equals}
  {
    op == Input || op == Add || op == Mult || op == LessThan || op == Equals
  }

  /** The number of memory cells one instruction occupies: the word, its read
      operands and its write target. Sequential instructions advance by this much. */
  function Width(op: Opcode): nat
  {
    1 + ReadCount(op) + (if HasWrite(op) then 1 else 0)
  }

  /** The arity table gives ADD, MULT, LESS_THAN and EQUALS four cells, the two
      jumps three, INPUT and OUTPUT two and HALT one. */
  lemma WidthTable(op: Opcode)
    ensures Width(op) == 4 <==> op in {Add, Mult, LessThan, Equals}
    ensures Width(op) == 3 <==> op in {JumpIfTrue, JumpIfFalse}
    ensures Width(op) == 2 <==> op in {Input, Output}
    ensures Width(op) == 1 <==> op == Halt
    ensures !HasWrite(op) ==> Width(op) == 1 + ReadCount(op)
  {
  }

  /** The `ParameterMode` enum. */
  datatype Mode = Position | Immediate

  function Digit(m: Mode): (d: int)
    ensures d == 0 || d == 1
  {
    match m
    case Position => 0
    case Immediate => 1
  }

  /** The enum lookup `ParameterMode(d)`: None where the lookup raises. */
  function ModeOf(d: int): (r: Option<Mode>)
    ensures r.Some? <==> d == 0 || d == 1
    ensures r.Some? ==> Digit(r.value) == d
  {
    if d == 0 then Some(Position)
    else if d == 1 then Some(Immediate)
    else None
  }

  /** A decoded instruction word: the opcode and the modes of the first two
      parameters. Both modes are always decoded, whatever the opcode. */
  datatype Instruction = Instruction(op: Opcode, mode1: Mode, mode2: Mode)

  datatype DecodeError = InvalidOpcode(code: int) | InvalidMode(digit: int)

  /** `parse_opcode`: the opcode is `w % 100`, the first mode the hundreds digit and
      the second mode the thousands digit. The opcode is looked up first, then the
      first mode, then the second; the first lookup that fails is the error. */
  function ParseOpcode(w: int): (r: Result<Instruction, DecodeError>)
    ensures r.Ok? <==> OpcodeOf(w % 100).Some? && w / 100 % 10 in {0, 1} && w / 1000 % 10 in {0, 1}
    ensures r.Ok? ==>
      && Code(r.value.op) == w % 100
      && Digit(r.value.mode1) == w / 100 % 10
      && Digit(r.value.mode2) == w / 1000 % 10
    ensures OpcodeOf(w % 100).None? ==> r == Err(InvalidOpcode(w % 100))
    ensures OpcodeOf(w % 100).Some? && w / 100 % 10 !in {0, 1} ==> r == Err(InvalidMode(w / 100 % 10))
    ensures OpcodeOf(w % 100).Some? && w / 100 % 10 in {0, 1} && w / 1000 % 10 !in {0, 1} ==>
      r == Err(InvalidMode(w / 1000 % 10))
  {
    match OpcodeOf(w % 100)
    case None => Err(InvalidOpcode(w % 100))
    case Some(op) =>
      match ModeOf(w / 100 % 10)
      case None => Err(InvalidMode(w / 100 % 10))
      case Some(mode1) =>
        match ModeOf(w / 1000 % 10)
        case None => Err(InvalidMode(w / 1000 % 10))
        case Some(mode2) => Ok(Instruction(op, mode1, mode2))
  }

  /** The packed word of an instruction: the inverse of ParseOpcode. */
  function Encode(ins: Instruction): (w: int)
    ensures 0 < w < 10000
  {
    Code(ins.op) + 100 * Digit(ins.mode1) + 1000 * Digit(ins.mode2)
  }

  /** Decoding the packed word of an instruction gives that instruction back. */
  lemma ParseEncode(ins: Instruction)
    ensures ParseOpcode(Encode(ins)) == Ok(ins)
  {
    var w := Encode(ins);
    assert w % 100 == Code(ins.op);
    assert w / 100 % 10 == Digit(ins.mode1);
    assert w / 1000 % 10 == Digit(ins.mode2);
    CodeRoundTrip(ins.op);
  }

  /** Euclidean division by a positive divisor is determined by quotient and remainder. */
  lemma DivModUnique(w: int, d: int, q: int, r: int)
    requires d > 0 && 0 <= r < d && w == d * q + r
    ensures w / d == q && w % d == r
  {
    var q', r' := w / d, w % d;
    var k := q - q';
    assert d * k == r' - r by {
      assert d * q - d * q' == d * (q - q');
    }
    if k >= 1 {
      MulAtLeast(d, k);
    } else if k <= -1 {
      MulAtLeast(d, -k);
    }
  }

  lemma MulAtLeast(d: int, k: int)
    requires d > 0 && k >= 1
    ensures d * k >= d
  {
    assert d * k == d * (k - 1) + d;
    assert d * (k - 1) >= 0;
  }

  /** Only the low four decimal digits of a word matter to the decoder. */
  lemma ParseOpcodeLowDigits(w: int)
    ensures ParseOpcode(w) == ParseOpcode(w % 10000)
  {
    var q, r := w / 10000, w % 10000;
    DivModUnique(r, 100, r / 100, r % 100);
    DivModUnique(w, 100, 100 * q + r / 100, r % 100);
    DivModUnique(r / 100, 10, r / 100 / 10, r / 100 % 10);
    DivModUnique(w / 100, 10, 10 * q + r / 100 / 10, r / 100 % 10);
    DivModUnique(r, 1000, r / 1000, r % 1000);
    DivModUnique(w, 1000, 10 * q + r / 1000, r % 1000);
    DivModUnique(r / 1000, 10, r / 1000 / 10, r / 1000 % 10);
    DivModUnique(w / 1000, 10, q + r / 1000 / 10, r / 1000 % 10);
  }

  /** A word that decodes is, in its low four digits, the packed word of what it decodes to. */
  lemma EncodeParse(w: int)
    requires ParseOpcode(w).Ok?
    ensures Encode(ParseOpcode(w).value) == w % 10000
  {
    var r := w % 10000;
    ParseOpcodeLowDigits(w);
    assert r == r % 100 + 100 * (r / 100 % 10) + 1000 * (r / 1000 % 10);
  }

  /** The decoder is exactly the inverse of Encode on the low four digits:
      a word decodes to an instruction if and only if it packs that instruction. */
  lemma ParseOpcodeIff(w: int, ins: Instruction)
    ensures ParseOpcode(w) == Ok(ins) <==> w % 10000 == Encode(ins)
  {
    if ParseOpcode(w) == Ok(ins) {
      EncodeParse(w);
    }
    if w % 10000 == Encode(ins) {
      ParseOpcodeLowDigits(w);
      ParseEncode(ins);
    }
  }

  /** Two words that decode to the same instruction agree in their low four digits. */
  lemma ParseOpcodeInjective(w1: int, w2: int)
    requires ParseOpcode(w1).Ok? && ParseOpcode(w1) == ParseOpcode(w2)
    ensures w1 % 10000 == w2 % 10000
  {
    EncodeParse(w1);
    EncodeParse(w2);
  }

  /** Worked decodings: 1002 is MULT with an immediate second operand, HALT still
      decodes both mode digits (so 299 is rejected), and 82 is no opcode at all. */
  lemma DecodeExamples()
    ensures ParseOpcode(1002) == Ok(Instruction(Mult, Position, Immediate))
    ensures ParseOpcode(99) == Ok(Instruction(Halt, Position, Position))
    ensures ParseOpcode(1108) == Ok(Instruction(Equals, Immediate, Immediate))
    ensures ParseOpcode(299) == Err(InvalidMode(2))
    ensures ParseOpcode(82) == Err(InvalidOpcode(82))
    ensures ParseOpcode(-99) == Err(InvalidMode(9))
  {
  }
}
