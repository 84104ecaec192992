/**
 * The fixed "standard_18" course and the difficulty-to-tolerance table.
 * Everything here is an immutable, process-wide constant table.
 */
module Course {

  /** Number of holes of the single supported course. */
  const HoleCount: nat := 18

  /** Target number of revolutions for holes 1..18 (0-based here). */
  const Targets: seq<int> := [140, 180, 100, 200, 135, 100, 170, 210, 100,
                              150, 180, 120, 200, 135, 120, 170, 200, 110]

  /** Par of holes 1..18 (0-based here). */
  const Pars: seq<int> := [3, 4, 3, 4, 3, 3, 4, 5, 3, 4, 4, 3, 4, 3, 3, 4, 4, 3]

  /** Tolerance used for a difficulty that is not in the table. */
  const DefaultTolerance: int := 5

  /** Allowed absolute deviation from the target for a difficulty level. */
  function Tolerance(difficulty: int): (t: int)
    ensures 2 <= t <= 10
    ensures !(1 <= difficulty <= 5) ==> t == DefaultTolerance
  {
    if difficulty == 1 then 10
    else if difficulty == 2 then 7
    else if difficulty == 3 then 5
    else if difficulty == 4 then 3
    else if difficulty == 5 then 2
    else DefaultTolerance
  }

  /** The table of levels 1..5. */
  lemma ToleranceTable(difficulty: int)
    requires 1 <= difficulty <= 5
    ensures Tolerance(difficulty) == [10, 7, 5, 3, 2][difficulty - 1]
  {
  }

  /** A harder level never allows more deviation than an easier one. */
  lemma ToleranceDecreasing(easier: int, harder: int)
    requires 1 <= easier < harder <= 5
    ensures Tolerance(harder) < Tolerance(easier)
  {
  }

  /** The default tolerance is the mid-level (difficulty 3) one. */
  lemma DefaultIsMidLevel(difficulty: int)
    requires !(1 <= difficulty <= 5)
    ensures Tolerance(difficulty) == Tolerance(3)
  {
  }

  /** Sum of the first `n` elements of `s`. */
  function SumTo(s: seq<int>, n: nat): int
    requires n <= |s|
  {
    if n == 0 then 0 else SumTo(s, n - 1) + s[n - 1]
  }

  /** Sum of the pars of all holes. */
  function TotalPar(): int
  {
    SumTo(Pars, |Pars|)
  }

  lemma {:induction false} TotalParIs64()
    ensures TotalPar() == 64
  {
    assert SumTo(Pars, 3) == 10;
    assert SumTo(Pars, 6) == 20;
    assert SumTo(Pars, 9) == 32;
    assert SumTo(Pars, 12) == 43;
    assert SumTo(Pars, 15) == 53;
    assert SumTo(Pars, 18) == 64;
  }

  /** Every hole has a positive target and a par between 3 and 5. */
  lemma CourseWellFormed()
    ensures |Targets| == |Pars| == HoleCount
    ensures forall i :: 0 <= i < HoleCount ==> Targets[i] > 0 && 3 <= Pars[i] <= 5
  {
  }

  /**
   * Whether `hole - 1` is a valid Python index into an 18-element list:
   * -18 <= hole - 1 < 18. Any other hole number makes the lookup raise.
   */
  predicate InRange(hole: int)
  {
    0 <= hole - 1 + HoleCount && hole - 1 < HoleCount
  }

  /**
   * The list position read by `list[hole - 1]`: non-negative indexes count
   * from the front, negative ones from the end.
   */
  function Index(hole: int): (i: nat)
    requires InRange(hole)
    ensures i < HoleCount
  {
    if hole - 1 >= 0 then hole - 1 else hole - 1 + HoleCount
  }

  /** Index agrees with Python's rule: position `hole - 1` modulo the length,
      which for holes 1..18 is plain `hole - 1`. */
  lemma IndexIsPythonIndex(hole: int)
    requires InRange(hole)
    ensures Index(hole) == (hole - 1) % HoleCount
    ensures 1 <= hole ==> Index(hole) == hole - 1
  {
  }
}
