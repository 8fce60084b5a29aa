# Dragon challenge solver, modelled in Dafny

The Dragon challenge: a canyon is a row of positions, and each position holds
the longest forward flight that may be launched from it. A value of 0 means
a dragon sits there and nothing can be launched. A crossing starts at
position 0. Each flight goes forward by at most the value of the position it
leaves. The last flight lands at or past the end of the canyon. The solver
(`Dragon.solve(int[])`) finds a crossing with the fewest positions by a
breadth-first search. It keeps a queue of positions and a `visited` array.
Each queued node links back to the node it was reached from, and a crossing
is rebuilt by following those links from its last position. The output line
lists the positions of the crossing as decimals separated by `, ` and ends
with `, out`. When there is no crossing, the line is `failure`. The input
reader rejects any negative number.

The project has five modules:

- `Course` (course.dfy) defines what a crossing is:
  - `IsWalk`/`IsPath` are forward paths.
  - `Accepted` is the validity rule of the repository's tests. It also lets a
    flight land backwards, and it accepts the empty traversal.
  - It gives an independent reference definition of the breadth-first
    levels. `Within(canyon, k)` is the set of positions that some walk of at
    most k positions reaches.
  - Its lemmas prove what the search relies on:
    - only the newest level needs expanding;
    - an exhausted level means there is no crossing;
    - the first level that holds an exiting position gives a shortest
      crossing.
- `Dragon` (dragon.dfy) is the search itself, written imperatively:
  - `visited` is an `array<bool>`.
  - The `Node` chain becomes an index-addressed `parent: array<int>`, where
    -1 stands for the null link of the start node.
  - The queue is a `seq<int>` with a head index.
  - The result is filled right to left into an `array<int>`.
  - The search is split along the loops of the source: `Start`, then
    `Search`, which runs rounds; each `Round` calls `Expand` per position,
    which calls `Visit` per new position; finally `Reconstruct`.
  - `Solve` is proved to return a shortest crossing, or the empty sequence
    exactly when no crossing exists.
  - `Answer` wires the input rule, the solver and the report together, and
    maps a rejected input to `failure`.
- `Text` (text.dfy) holds the input rule of `parse` over already-read numbers
  and the report written by `format`. It also has a reader for reports,
  proved to be the inverse of `format`.
- `Samples` (samples.dfy) proves what the solver and the report return on
  the canyons of the repository's unit tests.
- `Overflow` (overflow.dfy) models Java's 32-bit sum of a position and a
  flight length (see Findings).

The empty canyon: `solve` returns an empty array, and the line is `failure`.
The model follows the code. Position 0 does not exist in an empty canyon, so
no crossing exists (`Solvable` is false) and `Solve` returns `[]`.

## Model

| member | source | states |
|---|---|---|
| `Dragon.Solve` | src/main/java/joebowbeer/Dragon.java:94-131 | The result is a forward path from 0 that clears the canyon, or empty exactly when no crossing exists. It is accepted by the test rule, and no nonempty accepted traversal (backward flights allowed) is shorter. |
| `Dragon.Start` | src/main/java/joebowbeer/Dragon.java:95-101 | Position 0 alone is queued and visited when the canyon is nonempty; the visited set is level 1 of the reference definition and equals the queue's contents. |
| `Dragon.Search` | src/main/java/joebowbeer/Dragon.java:102-128 | The search either stops at a visited position whose parent chain is `flights` long and that clears the canyon, with no earlier level holding an exit, or stops with the queue empty, where level `flights` adds nothing to level `flights-1`. |
| `Dragon.Round` | src/main/java/joebowbeer/Dragon.java:104-127 | One round expands exactly the entries queued before it. If it crosses, it names the position at the current depth that exits. Otherwise the new visited set is the old one plus every position one flight from this round's entries, the queue gains exactly the new positions, and none of the expanded positions exits. Each newly visited position is linked to one of this round's entries, and every other parent link is unchanged. |
| `Dragon.Expand` | src/main/java/joebowbeer/Dragon.java:105-126 | Trying flights longest first: it crosses iff the position exits the canyon (its longest flight is tried first). Otherwise every in-canyon landing position is visited afterwards, the queue grows by exactly the newly visited ones at depth+1, and all depths already set are kept. Every newly visited position is linked to the expanded position, and every other parent link is unchanged. |
| `Dragon.Visit` | src/main/java/joebowbeer/Dragon.java:122-125 | A position not yet visited is queued once, marked visited and linked to the position it was reached from; no other entry of `visited` or `parent` changes, and the search invariant (visited array = visited set, parent links form a tree of steps rooted at 0, queue distinct) is kept. |
| `Dragon.Reconstruct` | src/main/java/joebowbeer/Dragon.java:113-118 | Following exactly `flights` parent links from the last position yields a forward walk from 0 of that length ending at the last position, in which each position's parent link is the position before it and the first position has no parent; the chain ends at the root, so the source's `assert node == null` is proved. |
| `Dragon.DistinctBound` | src/main/java/joebowbeer/Dragon.java:122-124 | A queue of distinct positions of the canyon is never longer than the canyon: every index is enqueued at most once. |
| `Dragon.Answer` | src/main/java/joebowbeer/Dragon.java:36-43 | A rejected input gives `failure`; otherwise the line is the report of a shortest accepted crossing; the line is `failure` iff the input is rejected or the canyon has no crossing. |
| `Course.NextLevel` | src/main/java/joebowbeer/Dragon.java:103-126 | Level f+1 is level f plus the successors of the newest positions only, which is why a round expands only the entries queued in the previous one. |
| `Course.LevelAdvance` | src/main/java/joebowbeer/Dragon.java:103-127 | After a round without a crossing, the next level is the current one plus the round's successors, and no position of the current level exits. |
| `Course.WithinMonotone` | src/main/java/joebowbeer/Dragon.java:103 | Levels only grow as the number of positions allowed grows. |
| `Course.Stable` | src/main/java/joebowbeer/Dragon.java:103 | Once a level adds nothing, no later level holds anything beyond it (the search ends when the queue is empty). |
| `Course.WalkTo` | src/main/java/joebowbeer/Dragon.java:122-125 | Every position of level k ends a forward walk from 0 of at most k positions. |
| `Course.DownClosed` | src/main/java/joebowbeer/Dragon.java:109-110 | Every level is closed downwards: flights of every length up to the longest are tried, so every position before a reached one is reached by then too. |
| `Course.AcceptedWithin` | src/test/java/joebowbeer/DragonTest.java:157-166 | The k-th entry of any traversal accepted by the test rule lies in level k+1, even with backward flights. |
| `Course.ShortestAtLeast` | src/main/java/joebowbeer/Dragon.java:102-103 | When no position of the first f-1 levels exits, every nonempty accepted traversal has at least f positions. |
| `Course.ShortestPath` | src/main/java/joebowbeer/Dragon.java:111-119 | A walk of f positions whose last position exits, found when no earlier level exits, is a path, is accepted, and is no longer than any nonempty accepted traversal. |
| `Course.Unsolvable` | src/main/java/joebowbeer/Dragon.java:129-130 | When a level adds nothing and none of its positions exits, there is no crossing and the empty traversal is the only accepted one. |
| `Course.OnlyEmpty` | src/main/java/joebowbeer/Dragon.java:129-130 | One traversal at a time: with a closed, exit-free level, an accepted traversal is empty. |
| `Course.AcceptedInClosed` | src/test/java/joebowbeer/DragonTest.java:157-166 | When a level adds nothing, the last entry of every nonempty accepted traversal lies in it. |
| `Course.SolvableIffAccepted` | src/test/java/joebowbeer/DragonTest.java:157-166 | A forward crossing exists iff the test rule accepts some nonempty traversal. |
| `Course.Exits` | src/main/java/joebowbeer/Dragon.java:110-111 | A flight from position i clears the canyon when i plus its longest flight reaches the canyon's length. |
| `Course.Step` | src/main/java/joebowbeer/Dragon.java:109-111 | One flight from i lands on a position j of the canyon with i < j <= i + canyon[i]; a value of 0 or less allows no step. |
| `Course.Accepted` | src/test/java/joebowbeer/DragonTest.java:157-166 | The test rule: the empty traversal, or one that starts at 0, stays on positions of the canyon, never moves past the previous position's budget (backward moves allowed) and ends on a position that exits. |
| `Course.PathAccepted` | src/test/java/joebowbeer/DragonTest.java:157-166 | Every forward path is accepted by the test rule. |
| `Text.Parse` | src/main/java/joebowbeer/Dragon.java:48-58 | The input is rejected iff some number is negative; otherwise the canyon is the numbers in the order read. |
| `Text.AllNatural` | src/main/java/joebowbeer/Dragon.java:53-55 | The input rule: no number read is negative. |
| `Text.NatDigits` | src/main/java/joebowbeer/Dragon.java:69 | The decimal of a natural number is a nonempty digit string that starts with 0 only for zero. |
| `Text.DigitsValue` | src/main/java/joebowbeer/Dragon.java:69 | The digits written for n denote n. |
| `Text.Decimal` | src/main/java/joebowbeer/Dragon.java:69 | An int is written as a digit string, after a minus sign exactly when it is negative. |
| `Text.DecimalRoundTrip` | src/main/java/joebowbeer/Dragon.java:69 | Reading a decimal followed by a non-digit gives back the number and the rest. |
| `Text.Join` | src/main/java/joebowbeer/Dragon.java:69-70 | The positions written with `String.valueOf` and separated by `, `; its partner is `Text.JoinRoundTrip`. |
| `Text.JoinRoundTrip` | src/main/java/joebowbeer/Dragon.java:67-70 | The decimals joined by `, ` read back as the sequence they came from. |
| `Text.Format` | src/main/java/joebowbeer/Dragon.java:64-71 | The report is `failure` exactly for the empty traversal; any other report ends with `, out`. |
| `Text.FormatRoundTrip` | src/main/java/joebowbeer/Dragon.java:64-71 | Reading a report back gives exactly the traversal reported, the empty one included. |
| `Text.FormatInjective` | src/main/java/joebowbeer/Dragon.java:64-71 | Different traversals get different reports. |
| `Text.FormatExamples` | src/test/java/joebowbeer/DragonTest.java:64-77 | The reports of [], [0] and [0, 5, 9] are `failure`, `0, out` and `0, 5, 9, out`. |
| `Samples.SolveEmpty` | src/test/java/joebowbeer/DragonTest.java:19-25 | The empty canyon gives the empty result. |
| `Samples.SolveOne` | src/test/java/joebowbeer/DragonTest.java:27-33 | The canyon 1 gives [0]. |
| `Samples.SolveDragon` | src/test/java/joebowbeer/DragonTest.java:43-46 | The canyon 0 gives the empty result. |
| `Samples.SampleCrossing` | src/test/java/joebowbeer/DragonTest.java:35-41 | In the sample canyon, the only accepted traversal of at most three positions is 0 5 9. |
| `Samples.SampleSolvable` | src/test/java/joebowbeer/DragonTest.java:35-41 | The sample canyon can be crossed. |
| `Samples.SampleShortest` | src/test/java/joebowbeer/DragonTest.java:35-41 | A shortest accepted traversal of the sample canyon is 0 5 9. |
| `Samples.SolveSample` | src/test/java/joebowbeer/DragonTest.java:35-41 | The sample canyon gives exactly [0, 5, 9]. |
| `Samples.AnswerSample` | src/test/java/joebowbeer/DragonTest.java:89-92 | The whole run on the sample input reports `0, 5, 9, out`. |
| `Samples.AnswerNegative` | src/test/java/joebowbeer/DragonTest.java:94-97 | An input holding -1 is answered `failure`. |
| `Overflow.Wrap` | src/main/java/joebowbeer/Dragon.java:110 | Java int addition: the result is in the int range, congruent to the true sum modulo 2^32, and equal to it when the sum fits. |
| `Overflow.NextIndex` | src/main/java/joebowbeer/Dragon.java:110 | The landing position as Java computes it is always an int; it equals the true sum when that fits, and it drops below the starting position only when the true sum overflows, in which case it is negative. |
| `Overflow.WrappedLanding` | src/main/java/joebowbeer/Dragon.java:110-111 | On the canyon 1 2147483647, 0 1 is a crossing, yet the longest flight from position 1 lands on a negative index. That index is neither past the end nor a position. |
| `Samples.SolveHuge` | src/main/java/joebowbeer/Dragon.java:109-119 | With sums computed without wrap-around, the canyon 1 2147483647 gives the crossing [0, 1]. |

## Left out

- `main` and `solve(InputStream, PrintStream)` (Dragon.java:27-43) are not modelled as stream I/O. `Dragon.Answer` stands in for them on a sequence of already-read numbers. Only the failure of the input rule is caught; other runtime faults are not (for example the index fault shown under Findings).
- `Scanner` tokenisation in `parse` is not modelled, nor its stop at the first token that is not an int. `Text.Parse` takes the numbers already read.
- `Dragon.Solve`: which shortest crossing is returned is not captured. When several shortest crossings exist, the source picks one through its order (queue order, longest flight first), and that order is not part of the contract. The result is only proved to be some shortest crossing. As a consequence, determinism (the same canyon gives the same crossing) is not stated either.
- Integer widths: the model's positions, flight lengths and depths are unbounded integers. The 32-bit wrap-around of `lastIndex + flight` is modelled only in `Overflow` (see Findings).
- `java.util.ArrayDeque` becomes a sequence with a head index, and `Node` objects become the parent array. The sharing of `Node` objects between traversals is not modelled.
- Negative canyon values: no precondition excludes them, and they behave as 0, as in the source's flight loop. The reader rejects them before the solver runs.
- The random stress test (`solvesRandomCanyons`, `randomCanyon`, DragonTest.java:99-152) is not modelled. Random number generation is outside the model.
- `Samples.AnswerSample` and `Samples.AnswerNegative` take the numbers of the input, not its text.

## Findings

| source | as written | input that shows it | evidently intended | confidence | as-written member | corrected member |
|---|---|---|---|---|---|---|
| src/main/java/joebowbeer/Dragon.java:110-124 | `nextIndex = lastIndex + flight` is 32-bit int addition. A large flight wraps it to a negative number, which fails `nextIndex >= canyon.length` and is then used as an index into `visited` (an out-of-bounds fault, printed as `failure` by the stream driver). | canyon `1 2147483647`: from position 1 the sum wraps to -2147483648. | A flight that long clears the canyon, so the answer is the crossing `0, 1, out`. | high; not executed | `Overflow.WrappedLanding` | `Samples.SolveHuge` |
