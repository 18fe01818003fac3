/** Day 1: the fuel a module of a given mass needs (`day1_part1`), and the fuel
    once the fuel's own mass is fuelled in turn (`day1_part2`), over a list of
    masses already read from the input file. */
module Day1 {

  /** `x // 3 - 2`: Python's floor division agrees with Dafny's for the divisor 3. */
  function Fuel(mass: int): (f: int)
    ensures 3 * (f + 2) <= mass < 3 * (f + 3)
  {
    mass / 3 - 2
  }

  function MassSum(masses: seq<int>): int
  {
    if masses == [] then 0 else MassSum(masses[..|masses| - 1]) + masses[|masses| - 1]
  }

  /** `day1_part1`: the sum of the fuel of every module; three times it lies within
      one less than three per module of the total mass, less six per module. */
  function TotalFuel(masses: seq<int>): (total: int)
    ensures 3 * (total + 2 * |masses|) <= MassSum(masses)
    ensures MassSum(masses) + |masses| <= 3 * (total + 3 * |masses|)
  {
    if masses == [] then 0 else TotalFuel(masses[..|masses| - 1]) + Fuel(masses[|masses| - 1])
  }

  function Max0(x: int): nat
  {
    if x > 0 then x else 0
  }

  /** The inner loop of `day1_part2`: while the fuel is positive, replace it by the
      fuel it needs and add that (if positive) to the total. The result is never
      negative and never more than half the starting fuel. */
  function ModuleFuel(fuel: int): (total: nat)
    ensures 2 * total <= Max0(fuel)
    decreases Max0(fuel)
  {
    if fuel <= 0 then 0
    else
      var next := fuel / 3 - 2;
      Max0(next) + ModuleFuel(next)
  }

  /** Fuelling the fuel never gives less than the fuel of the module alone. */
  lemma ModuleFuelAtLeastFuel(mass: int)
    ensures Fuel(mass) <= ModuleFuel(mass)
  {
  }

  function AllModuleFuel(masses: seq<int>): (total: nat)
  {
    if masses == [] then 0 else AllModuleFuel(masses[..|masses| - 1]) + ModuleFuel(masses[|masses| - 1])
  }

  /** The answer to part 2 is never below the answer to part 1. */
  lemma {:induction false} Part1AtMostPart2(masses: seq<int>)
    ensures TotalFuel(masses) <= AllModuleFuel(masses)
    decreases |masses|
  {
    if masses != [] {
      Part1AtMostPart2(masses[..|masses| - 1]);
      ModuleFuelAtLeastFuel(masses[|masses| - 1]);
    }
  }

  /** `day1_part2`: the nested loops, accumulating into one running total that
      never decreases. */
  method Day1Part2(masses: seq<int>) returns (total: int)
    ensures total == AllModuleFuel(masses)
    ensures total >= 0
  {
    total := 0;
    for i := 0 to |masses|
      invariant total == AllModuleFuel(masses[..i])
    {
      assert masses[..i + 1][..i] == masses[..i];
      var fuel := masses[i];
      ghost var start := total;
      while fuel > 0
        invariant total >= start
        invariant total + ModuleFuel(fuel) == start + ModuleFuel(masses[i])
        decreases fuel
      {
        fuel := fuel / 3 - 2;
        total := total + Max0(fuel);
      }
    }
    assert masses[..|masses|] == masses;
  }
}
