# Intcode interpreter of `adventofcode.py`, in Dafny

This project models the Intcode interpreter of `adventofcode.py` and proves
properties of it. The interpreter is the day-5 `run_program`, and the file also
holds a few smaller day-1 to day-4 puzzle routines around it.

- **Opcodes** (`opcodes.dfy`) holds the `Opcodes` and `ParameterMode` enums and
  the arity of each opcode (`number_of_read_parameters`, `has_write_parameter`).
  It also holds the decoder `parse_opcode`. The decoder splits a packed word into
  `w % 100` plus the hundreds and thousands digits as parameter modes. `Encode`
  is its inverse, and the decoder is proved to be exactly that inverse on the low
  four digits.
- **Machine** (`machine.dfy`) gives the meaning of one pass of the loop body of
  `run_program` as the function `Step`. `Run` gives the meaning of the whole
  loop, for a step budget. `StepInPlace` and `RunProgram` do the same work on an
  `array<int>` that is updated in place, as the Python list is. Each is proved
  equal to the function that specifies it.
- **Day2** (`day2.dfy`) is the earlier interpreter, which knows only words 1, 2
  and 99. It is proved to agree with `run_program` wherever it does not raise.
- **Day1**, **Day3** and **Day4** hold the fuel arithmetic, the grid helpers and
  the password rules.

The interpreter as written takes a single input code, and every INPUT stores that
same value. OUTPUT `print`s its operand, which the model appends to an output
sequence in execution order. The code has no input queue, no suspension or
resumption, and no chaining of several machines, so the model has none either.

Two decoding facts of the code are worth stating, and `DecodeExamples` proves both:
- Word 82 is no instruction: `82 % 100 == 82` is not an `Opcodes` value, so the
  lookup fails and the model reports `InvalidOpcode(82)`.
- HALT still has both mode digits decoded (`adventofcode.py:227-228` decodes them
  for every opcode), so 299 fails with `InvalidMode(2)`.

A failed enum lookup and an index outside the list both raise in Python. The
model returns a `Fault` instead (see "Left out").

## Model

| member | source | states |
|---|---|---|
| Opcodes.Code | adventofcode.py:195-204 | the enum value of every opcode lies in 1..99 |
| Opcodes.OpcodeOf | adventofcode.py:195-204 | the lookup `Opcodes(v)` finds an opcode whose value is `v`, and fails only when no opcode has that value |
| Opcodes.CodeRoundTrip | adventofcode.py:195-204 | looking up an opcode's value gives back that opcode, so the nine values are distinct |
| Opcodes.ReadCount | adventofcode.py:207-213 | HALT and INPUT read 0 operands, OUTPUT reads 1, every other opcode reads 2 |
| Opcodes.HasWrite | adventofcode.py:216-217 | a write target exists exactly for INPUT, ADD, MULT, LESS_THAN and EQUALS |
| Opcodes.WidthTable | adventofcode.py:207-217 | ADD, MULT, LESS_THAN and EQUALS occupy 4 cells, the jumps 3, INPUT and OUTPUT 2, HALT 1 |
| Opcodes.ModeOf | adventofcode.py:220-222 | the lookup `ParameterMode(d)` succeeds exactly for digits 0 and 1 and gives the mode with that value |
| Opcodes.ParseOpcode | adventofcode.py:225-229 | decoding succeeds iff `w % 100` is an opcode and both the hundreds and the thousands digit are 0 or 1; the opcode and the two modes are then those digits; each failure names the first lookup that failed |
| Opcodes.ParseEncode | adventofcode.py:225-229 | decoding the packed word of any instruction gives that instruction back |
| Opcodes.ParseOpcodeLowDigits | adventofcode.py:225-229 | only the low four decimal digits of a word affect its decoding, negative words included |
| Opcodes.EncodeParse | adventofcode.py:225-229 | a word that decodes equals, in its low four digits, the packed word of its decoding |
| Opcodes.ParseOpcodeIff | adventofcode.py:225-229 | a word decodes to an instruction if and only if its low four digits pack that instruction |
| Opcodes.ParseOpcodeInjective | adventofcode.py:225-229 | two words with the same decoding agree in their low four digits |
| Opcodes.DecodeExamples | adventofcode.py:225-229 | 1002 is MULT with an immediate second mode, 99 is HALT, 1108 is EQUALS in immediate modes, 299 and -99 have a bad mode digit, 82 is no opcode |
| Machine.Fetch | adventofcode.py:243 | reading a cell succeeds exactly inside the memory and gives that cell; outside it the fault names the address |
| Machine.ParseParameter | adventofcode.py:232-236 | in IMMEDIATE mode the operand is the raw parameter; in POSITION mode it is the addressed cell, and it fails only when that address is outside the memory |
| Machine.LoadOperands | adventofcode.py:244-253 | the operands the opcode reads are loaded in order, each mode-decoded, those it lacks are 0, and the write target is the raw cell after them, never mode-decoded; loading fails exactly when one of those reads is outside the memory |
| Machine.Execute | adventofcode.py:255-291 | only HALT stops; only a write outside the memory fails, naming that address; a completed instruction keeps the memory length, changes no cell but its target (none without a target), and only OUTPUT outputs |
| Machine.Step | adventofcode.py:243-291 | one pass of the loop body: fetch, decode, load, execute; its meaning per opcode is given by StepArith, StepCompare, StepInput, StepOutput, StepJump, StepStop and StepFrame |
| Machine.Run | adventofcode.py:242-291 | the `while True` loop for at most `fuel` instructions; IterateMoreFuel, IterateSplit and RunPreservesLength give its properties and RunProgram is proved equal to it |
| Machine.StepArith | adventofcode.py:255-261 | ADD and MULT write the sum or the product of their two mode-decoded operands into the cell named by the raw third parameter and advance by 4 |
| Machine.StepCompare | adventofcode.py:283-289 | LESS_THAN and EQUALS write 1 or 0 for `<` or `==` of their two mode-decoded operands into the cell named by the raw third parameter and advance by 4 |
| Machine.StepInput | adventofcode.py:263-265 | INPUT stores the input code into the cell named by its raw parameter and advances by 2 |
| Machine.StepOutput | adventofcode.py:267-269 | OUTPUT outputs its mode-decoded operand, leaves memory unchanged and advances by 2 |
| Machine.StepJump | adventofcode.py:271-281 | JUMP_IF_TRUE jumps to its second operand iff the first is nonzero and JUMP_IF_FALSE iff it is zero; otherwise both advance by 3, and neither writes |
| Machine.StepStop | adventofcode.py:290-291 | the loop stops normally exactly at a word that decodes to HALT |
| Machine.StepFrame | adventofcode.py:244-291 | every completed instruction keeps the memory length and changes no cell except the raw write target, or none when the opcode has no target; non-jumps advance by their width; only OUTPUT outputs, and at most one value |
| Machine.IterateMoreFuel | adventofcode.py:242 | a run that ended within its step budget ends the same way with any larger budget |
| Machine.IterateSplit | adventofcode.py:242-291 | running `f1 + f2` steps is running `f1` steps and then resuming from the memory and pointer they left, with the outputs joined in order |
| Machine.RunPreservesLength | adventofcode.py:239-291 | a run of `run_program` never changes the length of memory |
| Machine.RunSelfAdd | adventofcode.py:239-291 | the program `1,0,0,0,99` halts at address 4 with memory `2,0,0,0,99` and no output |
| Machine.RunEcho | adventofcode.py:239-291 | the program `3,0,4,0,99` with input code 7 halts at address 4 with memory `7,0,4,0,99` and outputs 7 |
| Machine.RunEquals8 | adventofcode.py:239-291 | the program `3,9,8,9,10,9,4,9,99,-1,8` outputs 1 when its input code is 8 and 0 otherwise, and halts at address 8 with that answer at address 9 |
| Machine.StoreInPlace | adventofcode.py:256 | an in-place write changes exactly the addressed cell when it lies in the array, and otherwise reports the address and changes nothing |
| Machine.StepInPlace | adventofcode.py:243-289 | one pass of the loop body on the array leaves the array, the next pointer and the output exactly as `Step` says, or reports the same stop or fault |
| Machine.RunProgram | adventofcode.py:239-291 | running on the array in place ends with the status, the array contents and the output sequence of `Run` from address 0 |
| Day2.Day2Step | adventofcode.py:40-51 | one pass of the day-2 loop body stops exactly at word 99; a pass that goes on was at word 1 or 2, keeps the memory length, outputs nothing and moves on by 4 |
| Day2.Day2Run | adventofcode.py:39-51 | the day-2 loop for at most `fuel` passes; Day2Silent and Day2AgreesWithRunProgram give its meaning and Day2Execute is proved equal to it |
| Day2.Day2StepAgrees | adventofcode.py:40-51 | where the day-2 loop body does not raise, it does exactly what the body of `run_program` does |
| Day2.Day2Silent | adventofcode.py:39-51 | the day-2 loop never outputs |
| Day2.Day2AgreesWithRunProgram | adventofcode.py:39-51 | on every program on which the day-2 loop does not raise, `run_program` with any input code ends the same way, with the same memory and no output |
| Day2.Day2Execute | adventofcode.py:39-51 | the day-2 loop on the list in place ends with the status and memory of its specification `Day2Run` |
| Day2.RunWithNounVerb | adventofcode.py:35-53 | cells 1 and 2 are set to noun and verb before the loop runs; a list too short for that fails on the first missing cell; after HALT the answer is cell 0 |
| Day2.Day2Part1 | adventofcode.py:27-53 | part 1 is the noun 12 and verb 2 set-up: a list shorter than 2 faults at cell 1 unchanged, a list of 2 faults at cell 2 with cell 1 set to 12, and a longer one runs the loop; after HALT its answer is cell 0 |
| Day1.Fuel | adventofcode.py:11 | the fuel `x // 3 - 2` of a mass is the largest `f` with `3 * (f + 2) <= mass` |
| Day1.TotalFuel | adventofcode.py:9-11 | bounds from both sides: `3 * (total + 2n) <= mass sum` and `mass sum + n <= 3 * (total + 3n)` for `n` modules, the floor of `x // 3` summed over the modules |
| Day1.ModuleFuel | adventofcode.py:18-20 | the inner loop's added fuel is never negative and never more than half the starting fuel |
| Day1.ModuleFuelAtLeastFuel | adventofcode.py:18-20 | fuelling the fuel in turn never gives less than the module's own fuel |
| Day1.Part1AtMostPart2 | adventofcode.py:9-21 | the part-2 total is never below the part-1 total |
| Day1.Day1Part2 | adventofcode.py:14-21 | the nested loops compute the sum over modules of the repeated fuel, which is never negative |
| Day3.Dist | adventofcode.py:94-95 | the distance is zero exactly between equal points |
| Day3.DistMetric | adventofcode.py:94-95 | the distance is symmetric and obeys the triangle inequality |
| Day3.Add | adventofcode.py:98-99 | adding a vector moves a point by the vector's length |
| Day3.AddKeepsDistance | adventofcode.py:98-99 | translating two points by the same vector keeps their distance |
| Day3.GetDirection | adventofcode.py:102-112 | exactly the letters U, D, R and L give a direction, and each direction is a unit step |
| Day3.OppositeDirections | adventofcode.py:102-110 | U then D, and R then L, return to the start, and the four steps are distinct |
| Day4.Digits | adventofcode.py:169 | the digits of a number are decimal digits with no leading zero, and reading them back gives the number |
| Day4.SortedCopy | adventofcode.py:170 | `sorted` gives a non-decreasing permutation of its input |
| Day4.InsertKeepsSorted | adventofcode.py:170 | inserting one element into a sorted sequence keeps it sorted |
| Day4.MeetsPart1 | adventofcode.py:170 | the test of `day4_part1`: the digits equal their sorted copy and there are fewer distinct digits than digits; Part1Meaning gives its meaning |
| Day4.SortedCopyFixpoint | adventofcode.py:170 | a digit list equals its sorted copy if and only if it never decreases |
| Day4.FewerElementsIffRepeat | adventofcode.py:170 | the set of digits is smaller than the list if and only if some digit repeats |
| Day4.Part1Meaning | adventofcode.py:170 | the part-1 rule holds iff the digits never decrease and two adjacent digits are equal |
| Day4.PairAmongCounts | adventofcode.py:183-186 | a dictionary holding every digit's count counts some digit twice iff some digit occurs exactly twice |
| Day4.ExactPair | adventofcode.py:183-186 | the frequency count finds a count of 2 iff some digit occurs exactly twice |
| Day4.MeetsPart2 | adventofcode.py:181-186 | the part-2 rule holds iff the digits never decrease and some digit occurs exactly twice |
| Day4.Part2ImpliesPart1 | adventofcode.py:181-186 | every number that meets the part-2 rule meets the part-1 rule |

## Left out

- Reading and parsing the input files (`open`, `split(',')`, `int`) is I/O. Memory is a given `array<int>` or `seq<int>`, and masses are a given `seq<int>`.
- `print` at OUTPUT is I/O. Its values are collected into the output sequence instead. The `__main__` block is not modelled.
- `day5_part1` and `day5_part2` only read a file and call `run_program` with input code 1 or 5. They are `RunProgram` with that input and are not modelled separately.
- Run: the `while True` loop of `run_program` need not terminate on a malformed program. The model runs for at most `fuel` instructions and reports `OutOfFuel` when the budget is spent before HALT or a fault.
- Fetch: Python reads a negative index from the end of the list and raises `IndexError` past the end. The model reports `AddressOutOfRange` for every address outside `0 .. |mem| - 1`, including negative ones, so runs that rely on negative indexing are not modelled.
- RunProgram: a Python exception (a failed enum lookup, an index outside the list) becomes a `Faulted` status, and the memory written up to that point is returned instead of being left behind by the exception.
- Day2Execute: the `raise Exception` on a word other than 1, 2 and 99 becomes the fault `UnknownInstruction(word)`.
- The day-2 part-2 search over all nouns and verbs (lines 66-88) is left out. It is an exhaustive loop over constant ranges, and each trial is `RunWithNounVerb`.
- The day-4 counting loops over the fixed range (lines 168-172, 180-188) are left out. The model covers the rule checked for each number.
- The day-3 wire tracing (lines 115-158) is left out. It is a file-driven search over sets and dictionaries of points, and its `min` over an empty intersection raises.
- Dist and Add: Python's `dist` and `add` zip tuples of any length. The model fixes them to pairs of integers, which is every use in the file.
- The day-6 orbit tree (lines 311-371) is not part of this model. It is unrelated to the interpreter.
