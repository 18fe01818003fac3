/** The executor of the Intcode interpreter, `run_program`: a fetch-decode-execute
    loop over one flat, self-modifying memory, driven by an instruction pointer.

    `Step` and `Run` give the meaning of one instruction and of a whole run on a
    memory value; `StepInPlace` and `RunProgram` do the same work on an array
    updated in place and are proved against them. */
module Machine {
  import opened Wrappers
  import opened Opcodes

  /** Why a run stops early: a word the decoder rejects, an address outside the
      memory, or (in the day-2 interpreter) a word other than 1, 2 and 99. */
  datatype Fault =
    | BadInstruction(error: DecodeError)
    | AddressOutOfRange(addr: int)
    | UnknownInstruction(word: int)

  /** Reading one memory cell. */
  function Fetch(mem: seq<int>, addr: int): (r: Result<int, Fault>)
    ensures r.Ok? <==> 0 <= addr < |mem|
    ensures r.Ok? ==> r.value == mem[addr]
    ensures r.Err? ==> r.error == AddressOutOfRange(addr)
  {
    if 0 <= addr < |mem| then Ok(mem[addr]) else Err(AddressOutOfRange(addr))
  }

  /** `parse_parameter`: in IMMEDIATE mode the operand is the parameter itself,
      in POSITION mode it is the cell the parameter addresses. */
  function ParseParameter(mem: seq<int>, mode: Mode, parameter: int): (r: Result<int, Fault>)
    ensures r.Ok? <==> mode == Immediate || 0 <= parameter < |mem|
    ensures mode == Immediate ==> r.Ok? && r.value == parameter
    ensures mode == Position && r.Ok? ==> r.value == mem[parameter]
  {
    if mode == Immediate then Ok(parameter) else Fetch(mem, parameter)
  }

  /** The read operand whose raw parameter sits at `at`. */
  function Operand(mem: seq<int>, mode: Mode, at: int): Result<int, Fault>
  {
    var parameter :- Fetch(mem, at);
    ParseParameter(mem, mode, parameter)
  }

  /** The two read operands and the write target of one instruction; those the
      opcode does not have are 0, as in the source. */
  datatype Operands = Operands(first: int, second: int, target: int)

  /** Loading reads the operands the opcode has, in order, each mode-decoded, and
      takes the write target as the raw cell after them; it fails exactly when one of
      those reads does. */
  function LoadOperands(mem: seq<int>, ip: int, ins: Instruction): (r: Result<Operands, Fault>)
    ensures r.Err? <==>
      || (ReadCount(ins.op) >= 1 && Operand(mem, ins.mode1, ip + 1).Err?)
      || (ReadCount(ins.op) >= 2 && Operand(mem, ins.mode2, ip + 2).Err?)
      || (HasWrite(ins.op) && !(0 <= ip + ReadCount(ins.op) + 1 < |mem|))
    ensures r.Ok? ==>
      && (if ReadCount(ins.op) >= 1 then Operand(mem, ins.mode1, ip + 1) == Ok(r.value.first) else r.value.first == 0)
      && (if ReadCount(ins.op) >= 2 then Operand(mem, ins.mode2, ip + 2) == Ok(r.value.second) else r.value.second == 0)
      && (if HasWrite(ins.op) then r.value.target == mem[ip + ReadCount(ins.op) + 1] else r.value.target == 0)
  {
    var count := ReadCount(ins.op);
    var first :- if count >= 1 then Operand(mem, ins.mode1, ip + 1) else Ok(0);
    var second :- if count >= 2 then Operand(mem, ins.mode2, ip + 2) else Ok(0);
    var target :- if HasWrite(ins.op) then Fetch(mem, ip + count + 1) else Ok(0);
    Ok(Operands(first, second, target))
  }

  /** What one instruction does: go on with a new memory, instruction pointer and
      the values it outputs, stop at HALT, or fail. */
  datatype StepResult =
    | Continue(mem: seq<int>, ip: int, out: seq<int>)
    | Stop
    | Crash(fault: Fault)

  /** Writing one cell and moving on to `next`. */
  function Store(mem: seq<int>, addr: int, v: int, next: int): StepResult
  {
    if 0 <= addr < |mem| then Continue(mem[addr := v], next, []) else Crash(AddressOutOfRange(addr))
  }

  /** The effect of one decoded instruction whose operands have been loaded: only
      HALT stops, only a write outside the memory fails, a write changes no cell but
      its target, and only OUTPUT outputs. */
  function Execute(mem: seq<int>, ip: int, op: Opcode, o: Operands, input: int): (r: StepResult)
    ensures r == Stop <==> op == Halt
    ensures r.Crash? <==> HasWrite(op) && !(0 <= o.target < |mem|)
    ensures r.Crash? ==> r.fault == AddressOutOfRange(o.target)
    ensures r.Continue? ==>
      && |r.mem| == |mem|
      && (forall a :: 0 <= a < |mem| && a != o.target ==> r.mem[a] == mem[a])
      && (!HasWrite(op) ==> r.mem == mem)
      && (op == Output <==> r.out != [])
  {
    var next := ip + Width(op);
    match op
    case Add => Store(mem, o.target, o.first + o.second, next)
    case Mult => Store(mem, o.target, o.first * o.second, next)
    case Input => Store(mem, o.target, input, next)
    case Output => Continue(mem, next, [o.first])
    case JumpIfTrue => Continue(mem, if o.first != 0 then o.second else next, [])
    case JumpIfFalse => Continue(mem, if o.first == 0 then o.second else next, [])
    case LessThan => Store(mem, o.target, if o.first < o.second then 1 else 0, next)
    case Equals => Store(mem, o.target, if o.first == o.second then 1 else 0, next)
    case Halt => Stop
  }

  /** One pass of the loop body of `run_program`: fetch the word at `ip`, decode it,
      load its operands and execute it. */
  function Step(mem: seq<int>, ip: int, input: int): StepResult
  {
    match Fetch(mem, ip)
    case Err(f) => Crash(f)
    case Ok(word) =>
      match ParseOpcode(word)
      case Err(e) => Crash(BadInstruction(e))
      case Ok(ins) =>
        match LoadOperands(mem, ip, ins)
        case Err(f) => Crash(f)
        case Ok(o) => Execute(mem, ip, ins.op, o, input)
  }

  /** How a run ended: at HALT, on a fault, or with its step budget spent. */
  datatype Status = Halted | Faulted(fault: Fault) | OutOfFuel

  /** The end of a run: its status, the memory as last written, the instruction
      pointer it stopped at and everything it output, in order. */
  datatype Outcome = Outcome(status: Status, mem: seq<int>, ip: int, output: seq<int>)

  function Prepend(out: seq<int>, r: Outcome): Outcome
  {
    Outcome(r.status, r.mem, r.ip, out + r.output)
  }

  /** The `while True` loop around a step function, for at most `fuel` steps. */
  function Iterate(step: (seq<int>, int) -> StepResult, mem: seq<int>, ip: int, fuel: nat): Outcome
    decreases fuel
  {
    if fuel == 0 then Outcome(OutOfFuel, mem, ip, [])
    else
      match step(mem, ip)
      case Stop => Outcome(Halted, mem, ip, [])
      case Crash(f) => Outcome(Faulted(f), mem, ip, [])
      case Continue(mem', ip', out) => Prepend(out, Iterate(step, mem', ip', fuel - 1))
  }

  /** The step function of `run_program` for a given input code. */
  function StepWith(input: int): (seq<int>, int) -> StepResult
  {
    (mem: seq<int>, ip: int) => Step(mem, ip, input)
  }

  /** `run_program` from instruction pointer `ip`, executing at most `fuel` instructions. */
  function Run(mem: seq<int>, ip: int, input: int, fuel: nat): Outcome
  {
    Iterate(StepWith(input), mem, ip, fuel)
  }

  // ---------------------------------------------------------------------------
  // One instruction at a time

  /** ADD and MULT read two mode-decoded operands, write their sum or product into
      the cell named by the raw third parameter and advance by 4. */
  lemma StepArith(mem: seq<int>, ip: int, input: int, ins: Instruction, a: int, b: int)
    requires 0 <= ip && ip + 3 < |mem|
    requires ParseOpcode(mem[ip]) == Ok(ins) && ins.op in {Add, Mult}
    requires ParseParameter(mem, ins.mode1, mem[ip + 1]) == Ok(a)
    requires ParseParameter(mem, ins.mode2, mem[ip + 2]) == Ok(b)
    requires 0 <= mem[ip + 3] < |mem|
    ensures ins.op == Add ==> Step(mem, ip, input) == Continue(mem[mem[ip + 3] := a + b], ip + 4, [])
    ensures ins.op == Mult ==> Step(mem, ip, input) == Continue(mem[mem[ip + 3] := a * b], ip + 4, [])
  {
  }

  /** LESS_THAN and EQUALS read two mode-decoded operands, write 1 or 0 for `<` or
      `==` into the cell named by the raw third parameter and advance by 4. */
  lemma StepCompare(mem: seq<int>, ip: int, input: int, ins: Instruction, a: int, b: int)
    requires 0 <= ip && ip + 3 < |mem|
    requires ParseOpcode(mem[ip]) == Ok(ins) && ins.op in {LessThan, Equals}
    requires ParseParameter(mem, ins.mode1, mem[ip + 1]) == Ok(a)
    requires ParseParameter(mem, ins.mode2, mem[ip + 2]) == Ok(b)
    requires 0 <= mem[ip + 3] < |mem|
    ensures ins.op == LessThan ==>
      Step(mem, ip, input) == Continue(mem[mem[ip + 3] := if a < b then 1 else 0], ip + 4, [])
    ensures ins.op == Equals ==>
      Step(mem, ip, input) == Continue(mem[mem[ip + 3] := if a == b then 1 else 0], ip + 4, [])
  {
  }

  /** INPUT stores the input code into the cell named by its raw parameter and advances by 2. */
  lemma StepInput(mem: seq<int>, ip: int, input: int, ins: Instruction)
    requires 0 <= ip && ip + 1 < |mem|
    requires ParseOpcode(mem[ip]) == Ok(ins) && ins.op == Input
    requires 0 <= mem[ip + 1] < |mem|
    ensures Step(mem, ip, input) == Continue(mem[mem[ip + 1] := input], ip + 2, [])
  {
  }

  /** OUTPUT emits its operand, leaves memory alone and advances by 2. */
  lemma StepOutput(mem: seq<int>, ip: int, input: int, ins: Instruction, a: int)
    requires 0 <= ip && ip + 1 < |mem|
    requires ParseOpcode(mem[ip]) == Ok(ins) && ins.op == Output
    requires ParseParameter(mem, ins.mode1, mem[ip + 1]) == Ok(a)
    ensures Step(mem, ip, input) == Continue(mem, ip + 2, [a])
  {
  }

  /** JUMP_IF_TRUE jumps to its second operand iff the first is nonzero,
      JUMP_IF_FALSE iff it is zero; otherwise both advance by 3. Neither writes. */
  lemma StepJump(mem: seq<int>, ip: int, input: int, ins: Instruction, a: int, b: int)
    requires 0 <= ip && ip + 2 < |mem|
    requires ParseOpcode(mem[ip]) == Ok(ins) && ins.op in {JumpIfTrue, JumpIfFalse}
    requires ParseParameter(mem, ins.mode1, mem[ip + 1]) == Ok(a)
    requires ParseParameter(mem, ins.mode2, mem[ip + 2]) == Ok(b)
    ensures ins.op == JumpIfTrue ==> Step(mem, ip, input) == Continue(mem, if a != 0 then b else ip + 3, [])
    ensures ins.op == JumpIfFalse ==> Step(mem, ip, input) == Continue(mem, if a == 0 then b else ip + 3, [])
  {
  }

  /** The loop stops normally exactly at a word that decodes to HALT (both of
      whose mode digits must still be 0 or 1). */
  lemma StepStop(mem: seq<int>, ip: int, input: int)
    ensures Step(mem, ip, input) == Stop <==>
      0 <= ip < |mem| && ParseOpcode(mem[ip]).Ok? && ParseOpcode(mem[ip]).value.op == Halt
  {
  }

  /** Whatever an instruction is, when it completes: memory keeps its length, only
      the cell named by the raw write parameter can change (and none for an opcode
      without one), sequential opcodes advance by their width and only OUTPUT outputs. */
  lemma StepFrame(mem: seq<int>, ip: int, input: int)
    requires Step(mem, ip, input).Continue?
    ensures 0 <= ip < |mem| && ParseOpcode(mem[ip]).Ok?
    ensures
      var s := Step(mem, ip, input);
      var op := ParseOpcode(mem[ip]).value.op;
      && |s.mem| == |mem|
      && (HasWrite(op) ==>
            && 0 <= ip + ReadCount(op) + 1 < |mem|
            && forall a :: 0 <= a < |mem| && a != mem[ip + ReadCount(op) + 1] ==> s.mem[a] == mem[a])
      && (!HasWrite(op) ==> s.mem == mem)
      && (op !in {JumpIfTrue, JumpIfFalse} ==> s.ip == ip + Width(op))
      && (op == Output <==> s.out != [])
      && |s.out| <= 1
  {
    var ins := ParseOpcode(mem[ip]).value;
    var o := LoadOperands(mem, ip, ins).value;
    if HasWrite(ins.op) {
      assert o.target == mem[ip + ReadCount(ins.op) + 1];
    }
  }

  // ---------------------------------------------------------------------------
  // Whole runs

  /** A run that ended within its budget ends the same way with any larger budget. */
  lemma {:induction false} IterateMoreFuel(step: (seq<int>, int) -> StepResult, mem: seq<int>, ip: int, fuel: nat, more: nat)
    requires Iterate(step, mem, ip, fuel).status != OutOfFuel
    requires fuel <= more
    ensures Iterate(step, mem, ip, more) == Iterate(step, mem, ip, fuel)
    decreases fuel
  {
    if step(mem, ip).Continue? {
      var s := step(mem, ip);
      IterateMoreFuel(step, s.mem, s.ip, fuel - 1, more - 1);
    }
  }

  /** Running `f1 + f2` steps is running `f1` steps and, if those did not finish,
      resuming from the memory and instruction pointer they left for `f2` more,
      with the outputs of the two parts in order. */
  lemma {:induction false} IterateSplit(step: (seq<int>, int) -> StepResult, mem: seq<int>, ip: int, f1: nat, f2: nat)
    ensures
      var first := Iterate(step, mem, ip, f1);
      Iterate(step, mem, ip, f1 + f2) ==
        if first.status == OutOfFuel then Prepend(first.output, Iterate(step, first.mem, first.ip, f2))
        else first
    decreases f1
  {
    if f1 == 0 {
      assert Prepend([], Iterate(step, mem, ip, f2)) == Iterate(step, mem, ip, f2);
    } else if step(mem, ip).Continue? {
      var s := step(mem, ip);
      var rest := Iterate(step, s.mem, s.ip, f1 - 1);
      IterateSplit(step, s.mem, s.ip, f1 - 1, f2);
      assert f1 + f2 - 1 == (f1 - 1) + f2;
      if rest.status == OutOfFuel {
        var tail := Iterate(step, rest.mem, rest.ip, f2);
        assert s.out + (rest.output + tail.output) == (s.out + rest.output) + tail.output;
      }
    }
  }

  /** A step function that keeps the memory length gives runs that keep it. */
  lemma {:induction false} IteratePreservesLength(step: (seq<int>, int) -> StepResult, mem: seq<int>, ip: int, fuel: nat)
    requires forall m, i :: step(m, i).Continue? ==> |step(m, i).mem| == |m|
    ensures |Iterate(step, mem, ip, fuel).mem| == |mem|
    decreases fuel
  {
    if fuel > 0 && step(mem, ip).Continue? {
      var s := step(mem, ip);
      IteratePreservesLength(step, s.mem, s.ip, fuel - 1);
    }
  }

  /** Memory never grows or shrinks during a run of `run_program`. */
  lemma RunPreservesLength(mem: seq<int>, ip: int, input: int, fuel: nat)
    ensures |Run(mem, ip, input, fuel).mem| == |mem|
  {
    forall m, i | StepWith(input)(m, i).Continue?
      ensures |StepWith(input)(m, i).mem| == |m|
    {
      StepFrame(m, i, input);
    }
    IteratePreservesLength(StepWith(input), mem, ip, fuel);
  }

  /** One unfolding of Run. */
  lemma RunUnfold(mem: seq<int>, ip: int, input: int, fuel: nat)
    requires fuel > 0
    ensures
      Run(mem, ip, input, fuel) ==
        match Step(mem, ip, input)
        case Stop => Outcome(Halted, mem, ip, [])
        case Crash(f) => Outcome(Faulted(f), mem, ip, [])
        case Continue(mem', ip', out) => Prepend(out, Run(mem', ip', input, fuel - 1))
  {
  }

  lemma PrependTwice(whole: Outcome, a: seq<int>, b: seq<int>, middle: Outcome, r: Outcome)
    requires whole == Prepend(a, middle) && middle == Prepend(b, r)
    ensures whole == Prepend(a + b, r)
  {
    assert a + (b + r.output) == (a + b) + r.output;
  }

  /** A run whose first step continues is that step followed by the rest of the run. */
  lemma RunContinue(mem: seq<int>, ip: int, input: int, fuel: nat, mem': seq<int>, ip': int, out: seq<int>)
    requires fuel > 0 && Step(mem, ip, input) == Continue(mem', ip', out)
    ensures Run(mem, ip, input, fuel) == Prepend(out, Run(mem', ip', input, fuel - 1))
  {
    RunUnfold(mem, ip, input, fuel);
  }

  /** A run whose first step is HALT halts there. */
  lemma RunHalt(mem: seq<int>, ip: int, input: int, fuel: nat)
    requires fuel > 0 && Step(mem, ip, input) == Stop
    ensures Run(mem, ip, input, fuel) == Outcome(Halted, mem, ip, [])
  {
    RunUnfold(mem, ip, input, fuel);
  }

  /** The program `1,0,0,0,99`: ADD adds address 0 to itself into address 0, */
  lemma SelfAddFirst()
    ensures Step([1, 0, 0, 0, 99], 0, 0) == Continue([2, 0, 0, 0, 99], 4, [])
  {
    assert ParseOpcode(1) == Ok(Instruction(Add, Position, Position));
    StepArith([1, 0, 0, 0, 99], 0, 0, Instruction(Add, Position, Position), 1, 1);
    assert [1, 0, 0, 0, 99][0 := 2] == [2, 0, 0, 0, 99];
  }

  /** then HALT stops at address 4. */
  lemma SelfAddHalt()
    ensures Step([2, 0, 0, 0, 99], 4, 0) == Stop
  {
    assert ParseOpcode(99) == Ok(Instruction(Halt, Position, Position));
    StepStop([2, 0, 0, 0, 99], 4, 0);
  }

  /** Worked run: ADD on itself doubles the first cell and halts at address 4. */
  lemma RunSelfAdd()
    ensures Run([1, 0, 0, 0, 99], 0, 0, 2) == Outcome(Halted, [2, 0, 0, 0, 99], 4, [])
  {
    SelfAddFirst();
    SelfAddHalt();
    RunContinue([1, 0, 0, 0, 99], 0, 0, 2, [2, 0, 0, 0, 99], 4, []);
    RunHalt([2, 0, 0, 0, 99], 4, 0, 1);
  }

  /** The echo program `3,0,4,0,99` with input code 7: INPUT stores 7 at address 0, */
  lemma EchoInput()
    ensures Step([3, 0, 4, 0, 99], 0, 7) == Continue([7, 0, 4, 0, 99], 2, [])
  {
    assert ParseOpcode(3) == Ok(Instruction(Input, Position, Position));
    StepInput([3, 0, 4, 0, 99], 0, 7, Instruction(Input, Position, Position));
    assert [3, 0, 4, 0, 99][0 := 7] == [7, 0, 4, 0, 99];
  }

  /** then OUTPUT prints the 7 at address 0, */
  lemma EchoOutput()
    ensures Step([7, 0, 4, 0, 99], 2, 7) == Continue([7, 0, 4, 0, 99], 4, [7])
  {
    assert ParseOpcode(4) == Ok(Instruction(Output, Position, Position));
    StepOutput([7, 0, 4, 0, 99], 2, 7, Instruction(Output, Position, Position), 7);
  }

  /** and HALT stops at address 4. */
  lemma EchoHalt()
    ensures Step([7, 0, 4, 0, 99], 4, 7) == Stop
  {
    assert ParseOpcode(99) == Ok(Instruction(Halt, Position, Position));
    StepStop([7, 0, 4, 0, 99], 4, 7);
  }

  /** Worked run: the input code is stored and printed back. */
  lemma RunEcho()
    ensures Run([3, 0, 4, 0, 99], 0, 7, 3) == Outcome(Halted, [7, 0, 4, 0, 99], 4, [7])
  {
    var mem, mem' := [3, 0, 4, 0, 99], [7, 0, 4, 0, 99];
    EchoInput();
    EchoOutput();
    EchoHalt();
    RunContinue(mem, 0, 7, 3, mem', 2, []);
    RunContinue(mem', 2, 7, 2, mem', 4, [7]);
    RunHalt(mem', 4, 7, 1);
  }

  /** The program `3,9,8,9,10,9,4,9,99,-1,8` asks whether its input equals 8:
      INPUT stores the input code at address 9, */
  lemma Equals8Input(input: int)
    ensures Step([3, 9, 8, 9, 10, 9, 4, 9, 99, -1, 8], 0, input)
         == Continue([3, 9, 8, 9, 10, 9, 4, 9, 99, input, 8], 2, [])
  {
    assert ParseOpcode(3) == Ok(Instruction(Input, Position, Position));
    StepInput([3, 9, 8, 9, 10, 9, 4, 9, 99, -1, 8], 0, input, Instruction(Input, Position, Position));
    assert [3, 9, 8, 9, 10, 9, 4, 9, 99, -1, 8][9 := input] == [3, 9, 8, 9, 10, 9, 4, 9, 99, input, 8];
  }

  /** EQUALS compares addresses 9 and 10 and writes 1 or 0 back to address 9, */
  lemma Equals8Compare(input: int)
    ensures Step([3, 9, 8, 9, 10, 9, 4, 9, 99, input, 8], 2, input)
         == Continue([3, 9, 8, 9, 10, 9, 4, 9, 99, if input == 8 then 1 else 0, 8], 6, [])
  {
    var mem := [3, 9, 8, 9, 10, 9, 4, 9, 99, input, 8];
    assert ParseOpcode(8) == Ok(Instruction(Equals, Position, Position));
    StepCompare(mem, 2, input, Instruction(Equals, Position, Position), input, 8);
    assert mem[9 := if input == 8 then 1 else 0] == [3, 9, 8, 9, 10, 9, 4, 9, 99, if input == 8 then 1 else 0, 8];
  }

  /** OUTPUT prints address 9, */
  lemma Equals8Output(input: int, v: int)
    ensures Step([3, 9, 8, 9, 10, 9, 4, 9, 99, v, 8], 6, input)
         == Continue([3, 9, 8, 9, 10, 9, 4, 9, 99, v, 8], 8, [v])
  {
    assert ParseOpcode(4) == Ok(Instruction(Output, Position, Position));
    StepOutput([3, 9, 8, 9, 10, 9, 4, 9, 99, v, 8], 6, input, Instruction(Output, Position, Position), v);
  }

  /** and HALT stops at address 8. */
  lemma Equals8Halt(input: int, v: int)
    ensures Step([3, 9, 8, 9, 10, 9, 4, 9, 99, v, 8], 8, input) == Stop
  {
    assert ParseOpcode(99) == Ok(Instruction(Halt, Position, Position));
    StepStop([3, 9, 8, 9, 10, 9, 4, 9, 99, v, 8], 8, input);
  }

  /** Worked run with a comparison: the program outputs 1 if its input code is 8
      and 0 otherwise, and halts at address 8 with that answer at address 9. */
  lemma RunEquals8(input: int)
    ensures
      var v := if input == 8 then 1 else 0;
      Run([3, 9, 8, 9, 10, 9, 4, 9, 99, -1, 8], 0, input, 4)
        == Outcome(Halted, [3, 9, 8, 9, 10, 9, 4, 9, 99, v, 8], 8, [v])
  {
    var v := if input == 8 then 1 else 0;
    var mem1 := [3, 9, 8, 9, 10, 9, 4, 9, 99, input, 8];
    var mem2 := [3, 9, 8, 9, 10, 9, 4, 9, 99, v, 8];
    Equals8Input(input);
    Equals8Compare(input);
    Equals8Output(input, v);
    Equals8Halt(input, v);
    RunContinue([3, 9, 8, 9, 10, 9, 4, 9, 99, -1, 8], 0, input, 4, mem1, 2, []);
    RunContinue(mem1, 2, input, 3, mem2, 6, []);
    RunContinue(mem2, 6, input, 2, mem2, 8, [v]);
    RunHalt(mem2, 8, input, 1);
  }

  // ---------------------------------------------------------------------------
  // The interpreter on an array updated in place

  /** What `StepInPlace` reports; the new memory is the array itself. */
  datatype Effect = Advanced(ip: int, out: seq<int>) | Stopped | Crashed(fault: Fault)

  /** The effect `e` and the memory `after` are what the step `s` does to `before`. */
  predicate Done(s: StepResult, e: Effect, before: seq<int>, after: seq<int>)
  {
    match s
    case Continue(m, next, out) => e == Advanced(next, out) && after == m
    case Stop => e == Stopped && after == before
    case Crash(f) => e == Crashed(f) && after == before
  }

  /** One pass of the loop of `run_program`: the whole run is the outputs so far
      followed by the rest of the run from the state after the step. */
  lemma LoopStep(whole: Outcome, output: seq<int>, before: seq<int>, after: seq<int>,
                 ip: int, input: int, fuel: nat, e: Effect)
    requires fuel > 0 && Done(Step(before, ip, input), e, before, after)
    requires whole == Prepend(output, Run(before, ip, input, fuel))
    ensures e.Stopped? ==> whole == Outcome(Halted, after, ip, output)
    ensures e.Crashed? ==> whole == Outcome(Faulted(e.fault), after, ip, output)
    ensures e.Advanced? ==> whole == Prepend(output + e.out, Run(after, e.ip, input, fuel - 1))
  {
    RunUnfold(before, ip, input, fuel);
    if e.Advanced? {
      PrependTwice(whole, output, e.out, Run(before, ip, input, fuel), Run(after, e.ip, input, fuel - 1));
    }
  }

  /** Assigning `mem[addr] := v`, which fails outside the array. */
  method StoreInPlace(mem: array<int>, addr: int, v: int, next: int) returns (e: Effect)
    modifies mem
    ensures match Store(old(mem[..]), addr, v, next)
      case Continue(m, ip, out) => e == Advanced(ip, out) && mem[..] == m
      case Stop => false
      case Crash(f) => e == Crashed(f) && mem[..] == old(mem[..])
  {
    if 0 <= addr < mem.Length {
      mem[addr] := v;
      e := Advanced(next, []);
    } else {
      e := Crashed(AddressOutOfRange(addr));
    }
  }

  /** The loop body of `run_program` on the array itself. */
  method StepInPlace(mem: array<int>, ip: int, input: int) returns (e: Effect)
    modifies mem
    ensures Done(Step(old(mem[..]), ip, input), e, old(mem[..]), mem[..])
  {
    if !(0 <= ip < mem.Length) {
      return Crashed(AddressOutOfRange(ip));
    }
    var decoded := ParseOpcode(mem[ip]);
    if decoded.Err? {
      return Crashed(BadInstruction(decoded.error));
    }
    var ins := decoded.value;
    var operands := LoadOperands(mem[..], ip, ins);
    if operands.Err? {
      return Crashed(operands.error);
    }
    var o := operands.value;
    var next := ip + Width(ins.op);
    match ins.op {
      case Add => e := StoreInPlace(mem, o.target, o.first + o.second, next);
      case Mult => e := StoreInPlace(mem, o.target, o.first * o.second, next);
      case Input => e := StoreInPlace(mem, o.target, input, next);
      case Output => e := Advanced(next, [o.first]);
      case JumpIfTrue => e := Advanced(if o.first != 0 then o.second else next, []);
      case JumpIfFalse => e := Advanced(if o.first == 0 then o.second else next, []);
      case LessThan => e := StoreInPlace(mem, o.target, if o.first < o.second then 1 else 0, next);
      case Equals => e := StoreInPlace(mem, o.target, if o.first == o.second then 1 else 0, next);
      case Halt => e := Stopped;
    }
  }

  /** `run_program(opcodes, inputCode)`: runs from address 0 until HALT, a fault or
      `fuel` instructions, updating `mem` in place and collecting what OUTPUT prints. */
  method RunProgram(mem: array<int>, input: int, fuel: nat) returns (status: Status, output: seq<int>)
    modifies mem
    ensures
      var r := Run(old(mem[..]), 0, input, fuel);
      status == r.status && mem[..] == r.mem && output == r.output
  {
    ghost var whole := Run(mem[..], 0, input, fuel);
    var ip := 0;
    var steps := fuel;
    output := [];
    while steps > 0
      invariant whole == Prepend(output, Run(mem[..], ip, input, steps))
      decreases steps
    {
      ghost var before := mem[..];
      var e := StepInPlace(mem, ip, input);
      LoopStep(whole, output, before, mem[..], ip, input, steps, e);
      match e {
        case Stopped =>
          return Halted, output;
        case Crashed(f) =>
          return Faulted(f), output;
        case Advanced(next, out) =>
          output := output + out;
          ip := next;
      }
      steps := steps - 1;
    }
    status := OutOfFuel;
  }
}
