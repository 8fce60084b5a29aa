/**
 * The solver and the report on the canyons of the repository's unit tests:
 * an empty canyon, a one-position canyon, a dragon at the start, the sample
 * canyon 5 6 0 4 2 4 1 0 0 4 and an input with a negative number; and on
 * the canyon 1 2147483647, where Java's int arithmetic and the model part.
 */
module Samples {
  import opened Course
  import Dragon
  import Text
  import Overflow

  /** An empty canyon has no crossing. */
  method SolveEmpty() returns (r: seq<int>)
    ensures r == []
  {
    r := Dragon.Solve([]);
    assert Accepted([], r);
  }

  /** A single position with a flight of 1 is crossed from position 0 alone. */
  method SolveOne() returns (r: seq<int>)
    ensures r == [0]
  {
    var canyon := [1];
    r := Dragon.Solve(canyon);
    assert Accepted(canyon, [0]);
    SolvableIffAccepted(canyon);
    assert r != [];
    assert |r| == 1;
  }

  /** A dragon on position 0 blocks every crossing. */
  method SolveDragon() returns (r: seq<int>)
    ensures r == []
  {
    var canyon := [0];
    r := Dragon.Solve(canyon);
    if r != [] {
      assert false;
    }
  }

  const Sample: seq<int> := [5, 6, 0, 4, 2, 4, 1, 0, 0, 4]

  /** The only accepted traversal of the sample canyon with at most three positions is 0 5 9. */
  lemma SampleCrossing(t: seq<int>)
    requires Accepted(Sample, t) && t != [] && |t| <= 3
    ensures t == [0, 5, 9]
  {
    assert t[0] == 0;
    if |t| >= 2 {
      assert 0 <= t[1] <= 5;
    }
    if |t| == 3 {
      assert t[2] == 9;
    }
  }

  /** The sample canyon can be crossed. */
  lemma SampleSolvable()
    ensures Solvable(Sample)
  {
    assert Accepted(Sample, [0, 5, 9]);
    SolvableIffAccepted(Sample);
  }

  /** A shortest accepted traversal of the sample canyon is 0 5 9. */
  lemma SampleShortest(p: seq<int>)
    requires Accepted(Sample, p) && p != []
    requires forall t :: Accepted(Sample, t) && t != [] ==> |p| <= |t|
    ensures p == [0, 5, 9]
  {
    assert Accepted(Sample, [0, 5, 9]);
    SampleCrossing(p);
  }

  /** The sample canyon has exactly one shortest crossing, 0 5 9. */
  method SolveSample() returns (r: seq<int>)
    ensures r == [0, 5, 9]
  {
    r := Dragon.Solve(Sample);
    SampleSolvable();
    SampleShortest(r);
  }

  /** The whole run on the sample input reports "0, 5, 9, out". */
  method AnswerSample() returns (line: string)
    ensures line == "0, 5, 9, out"
  {
    ghost var path;
    assert Text.AllNatural(Sample);
    line, path := Dragon.Answer(Sample);
    SampleSolvable();
    assert path != [];
    SampleShortest(path);
    Text.FormatExamples();
  }

  /** A negative number in the input is answered "failure". */
  method AnswerNegative() returns (line: string)
    ensures line == "failure"
  {
    ghost var path;
    line, path := Dragon.Answer([-1]);
    assert [-1][0] < 0;
    assert !Text.AllNatural([-1]);
  }

  /**
   * The canyon 1 2147483647 is crossed by 0 1: with landing positions
   * computed without wrap-around, the long flight from 1 clears the canyon.
   */
  method SolveHuge() returns (r: seq<int>)
    ensures r == [0, 1]
  {
    var canyon := Overflow.Huge;
    r := Dragon.Solve(canyon);
    assert Accepted(canyon, [0, 1]);
    SolvableIffAccepted(canyon);
    assert r != [] && |r| <= 2;
    assert !Exits(canyon, 0);
  }
}
