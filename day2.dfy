/** The day-2 interpreter: the earlier loop that knows only ADD (word 1), MULT
    (word 2) and HALT (word 99), always reads its operands by position, always
    moves on by 4 and raises on any other word. */
module Day2 {
  import opened Wrappers
  import opened Opcodes
  import opened Machine

  /** The two operands and the target of an ADD or MULT at `pos`, read in the
      order the source evaluates them. */
  function Day2Operands(mem: seq<int>, pos: int): Result<(int, int, int), Fault>
  {
    var x :- Fetch(mem, pos + 1);
    var a :- Fetch(mem, x);
    var y :- Fetch(mem, pos + 2);
    var b :- Fetch(mem, y);
    var t :- Fetch(mem, pos + 3);
    Ok((a, b, t))
  }

  /** One pass of the day-2 loop body: it stops exactly at word 99, and every pass
      that goes on keeps the memory length, outputs nothing and moves on by 4. */
  function Day2Step(mem: seq<int>, pos: int): (r: StepResult)
    ensures r == Stop <==> 0 <= pos < |mem| && mem[pos] == 99
    ensures r.Continue? ==>
      && 0 <= pos < |mem| && mem[pos] in {1, 2}
      && r.ip == pos + 4 && r.out == [] && |r.mem| == |mem|
  {
    if !(0 <= pos < |mem|) then Crash(AddressOutOfRange(pos))
    else if mem[pos] == 1 || mem[pos] == 2 then
      match Day2Operands(mem, pos)
      case Err(f) => Crash(f)
      case Ok((a, b, t)) => Store(mem, t, if mem[pos] == 1 then a + b else a * b, pos + 4)
    else if mem[pos] == 99 then Stop
    else Crash(UnknownInstruction(mem[pos]))
  }

  function Day2StepFn(): (seq<int>, int) -> StepResult
  {
    (mem: seq<int>, pos: int) => Day2Step(mem, pos)
  }

  /** The day-2 loop from position `pos`, for at most `fuel` instructions. */
  function Day2Run(mem: seq<int>, pos: int, fuel: nat): Outcome
  {
    Iterate(Day2StepFn(), mem, pos, fuel)
  }

  /** Where the day-2 loop does not raise, it does exactly what `run_program` does:
      words 1, 2 and 99 decode to ADD, MULT and HALT in position mode, and the
      operands, target, faults and the step of 4 coincide. */
  lemma Day2StepAgrees(mem: seq<int>, pos: int, input: int)
    requires !Day2Step(mem, pos).Crash? || !Day2Step(mem, pos).fault.UnknownInstruction?
    ensures Step(mem, pos, input) == Day2Step(mem, pos)
  {
    if 0 <= pos < |mem| {
      var w := mem[pos];
      if w == 1 || w == 2 {
        var ins := ParseOpcode(w).value;
        assert ins == Instruction(if w == 1 then Add else Mult, Position, Position);
        assert Width(ins.op) == 4;
      } else {
        assert w == 99;
        assert ParseOpcode(w) == Ok(Instruction(Halt, Position, Position));
      }
    }
  }

  /** The day-2 loop never outputs. */
  lemma {:induction false} Day2Silent(mem: seq<int>, pos: int, fuel: nat)
    ensures Day2Run(mem, pos, fuel).output == []
    decreases fuel
  {
    if fuel > 0 && Day2Step(mem, pos).Continue? {
      var s := Day2Step(mem, pos);
      Day2Silent(s.mem, s.ip, fuel - 1);
    }
  }

  /** On every program on which the day-2 interpreter does not raise (in particular
      every program whose executed words are 1, 2 and 99), `run_program` with any
      input code ends the same way, with the same memory and no output. */
  lemma {:induction false} Day2AgreesWithRunProgram(mem: seq<int>, pos: int, input: int, fuel: nat)
    requires !Day2Run(mem, pos, fuel).status.Faulted? || !Day2Run(mem, pos, fuel).status.fault.UnknownInstruction?
    ensures Run(mem, pos, input, fuel) == Day2Run(mem, pos, fuel)
    decreases fuel
  {
    if fuel > 0 {
      var s := Day2Step(mem, pos);
      Day2StepAgrees(mem, pos, input);
      if s.Continue? {
        Day2AgreesWithRunProgram(s.mem, s.ip, input, fuel - 1);
        assert s.out == [];
      }
    }
  }

  /** The `while True` loop of `day2_part1` (and of each trial in `day2_part2`) on
      the list itself. */
  method Day2Execute(mem: array<int>, fuel: nat) returns (status: Status)
    modifies mem
    ensures
      var r := Day2Run(old(mem[..]), 0, fuel);
      status == r.status && mem[..] == r.mem
  {
    ghost var whole := Day2Run(mem[..], 0, fuel);
    var pos := 0;
    var steps := fuel;
    while steps > 0
      invariant whole == Day2Run(mem[..], pos, steps)
      decreases steps
    {
      if !(0 <= pos < mem.Length) {
        return Faulted(AddressOutOfRange(pos));
      }
      var word := mem[pos];
      if word == 1 || word == 2 {
        var operands := Day2Operands(mem[..], pos);
        if operands.Err? {
          return Faulted(operands.error);
        }
        var (a, b, t) := operands.value;
        if !(0 <= t < mem.Length) {
          return Faulted(AddressOutOfRange(t));
        }
        mem[t] := if word == 1 then a + b else a * b;
      } else if word == 99 {
        return Halted;
      } else {
        return Faulted(UnknownInstruction(word));
      }
      pos := pos + 4;
      steps := steps - 1;
    }
    status := OutOfFuel;
  }

  /** The noun/verb set-up around the loop of `day2_part1` (and of each trial in
      `day2_part2`): cells 1 and 2 are overwritten, the loop runs and the answer is
      cell 0. Too short a list fails on the first missing cell. */
  method RunWithNounVerb(mem: array<int>, noun: int, verb: int, fuel: nat) returns (status: Status, answer: int)
    modifies mem
    ensures mem.Length < 2 ==> status == Faulted(AddressOutOfRange(1)) && mem[..] == old(mem[..])
    ensures mem.Length == 2 ==> status == Faulted(AddressOutOfRange(2)) && mem[..] == old(mem[..])[1 := noun]
    ensures mem.Length >= 3 ==>
      var r := Day2Run(old(mem[..])[1 := noun][2 := verb], 0, fuel);
      status == r.status && mem[..] == r.mem
    ensures status == Halted ==> mem.Length >= 3 && answer == mem[0]
  {
    answer := 0;
    if mem.Length < 2 {
      return Faulted(AddressOutOfRange(1)), answer;
    }
    mem[1] := noun;
    if mem.Length < 3 {
      return Faulted(AddressOutOfRange(2)), answer;
    }
    mem[2] := verb;
    status := Day2Execute(mem, fuel);
    if status == Halted {
      answer := mem[0];
    }
  }

  /** `day2_part1` once the list is read: the "1202" set-up of noun 12 and verb 2. */
  method Day2Part1(mem: array<int>, fuel: nat) returns (status: Status, answer: int)
    modifies mem
    ensures mem.Length < 2 ==> status == Faulted(AddressOutOfRange(1)) && mem[..] == old(mem[..])
    ensures mem.Length == 2 ==> status == Faulted(AddressOutOfRange(2)) && mem[..] == old(mem[..])[1 := 12]
    ensures mem.Length >= 3 ==>
      var r := Day2Run(old(mem[..])[1 := 12][2 := 2], 0, fuel);
      status == r.status && mem[..] == r.mem
    ensures status == Halted ==> mem.Length >= 3 && answer == mem[0]
  {
    status, answer := RunWithNounVerb(mem, 12, 2, fuel);
  }
}
