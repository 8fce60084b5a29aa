/**
 * The canyon of the Dragon challenge and what it means to cross it.
 *
 * A canyon is a sequence of integers; canyon[i] is the longest forward
 * flight that may be launched from position i (0, or anything below, means a
 * dragon sits there and nothing can be launched). A crossing starts at
 * position 0 and ends with a flight that lands at or past the end.
 *
 * Besides the paths themselves, this module gives an independent reference
 * definition of the breadth-first levels: Within(canyon, k) is the set of
 * positions that some walk of at most k positions reaches.
 */
module Course {

  /** The final flight from position i clears the canyon. */
  predicate Exits(canyon: seq<int>, i: int)
    requires 0 <= i < |canyon|
  {
    i + canyon[i] >= |canyon|
  }

  /** One forward flight from position i lands on position j inside the canyon. */
  predicate Step(canyon: seq<int>, i: int, j: int)
  {
    0 <= i < |canyon| && 0 <= j < |canyon| && i < j <= i + canyon[i]
  }

  /** A walk: starts at 0 and every flight is a forward Step. */
  ghost predicate IsWalk(canyon: seq<int>, w: seq<int>)
  {
    |w| > 0 && w[0] == 0 &&
    (forall k :: 0 <= k < |w| ==> 0 <= w[k] < |canyon|) &&
    (forall k :: 0 <= k < |w| - 1 ==> Step(canyon, w[k], w[k + 1]))
  }

  /** A path across the canyon: a walk whose last position exits. */
  ghost predicate IsPath(canyon: seq<int>, p: seq<int>)
  {
    IsWalk(canyon, p) && Exits(canyon, p[|p| - 1])
  }

  /** Some path across the canyon exists. */
  ghost predicate Solvable(canyon: seq<int>)
  {
    exists p :: IsPath(canyon, p)
  }

  /**
   * The acceptance test the project's own tests apply to a traversal: the
   * empty traversal is accepted; otherwise it starts at 0, every position is
   * a position of the canyon, each position is within the previous one's
   * flight budget (backward moves are not excluded), and the last one exits.
   */
  ghost predicate Accepted(canyon: seq<int>, t: seq<int>)
  {
    t == [] ||
    (t[0] == 0 &&
     (forall k :: 0 <= k < |t| ==> 0 <= t[k] < |canyon|) &&
     (forall k :: 0 <= k < |t| - 1 ==> t[k + 1] <= t[k] + canyon[t[k]]) &&
     Exits(canyon, t[|t| - 1]))
  }

  /** The start of every walk: position 0, when the canyon has one. */
  function Root(canyon: seq<int>): set<int>
  {
    if |canyon| > 0 then {0} else {}
  }

  /** Every position one forward flight away from some position of s. */
  ghost function Succ(canyon: seq<int>, s: set<int>): set<int>
  {
    set i, j | i in s && 0 <= j < |canyon| && Step(canyon, i, j) :: j
  }

  /** The positions of the canyon one flight from u lands on. */
  ghost function Flights(canyon: seq<int>, u: int): set<int>
  {
    set j | 0 <= j < |canyon| && Step(canyon, u, j)
  }

  /** Positions reached by some walk of at most k positions (the first k BFS levels). */
  ghost function Within(canyon: seq<int>, k: nat): set<int>
  {
    if k == 0 then {} else Grow(canyon, Within(canyon, k - 1))
  }

  /** One more BFS level: the root, what was reached, and one flight from it. */
  ghost function Grow(canyon: seq<int>, s: set<int>): set<int>
  {
    Root(canyon) + s + Succ(canyon, s)
  }

  /** No position of s exits the canyon. */
  ghost predicate NoExitIn(canyon: seq<int>, s: set<int>)
  {
    forall i :: i in s && 0 <= i < |canyon| ==> !Exits(canyon, i)
  }

  /** Every level is a set of positions of the canyon. */
  lemma {:induction false} WithinInRange(canyon: seq<int>, k: nat)
    ensures forall i :: i in Within(canyon, k) ==> 0 <= i < |canyon|
  {
    if k > 0 {
      WithinInRange(canyon, k - 1);
    }
  }

  /** The levels grow with the number of positions allowed. */
  lemma {:induction false} WithinMonotone(canyon: seq<int>, a: nat, b: nat)
    requires a <= b
    ensures Within(canyon, a) <= Within(canyon, b)
  {
    if a < b {
      WithinMonotone(canyon, a, b - 1);
    }
  }

  /** Succ over a set with one more position. */
  lemma SuccAdd(canyon: seq<int>, s: set<int>, u: int)
    ensures Succ(canyon, s + {u}) == Succ(canyon, s) + Flights(canyon, u)
  {
  }

  /**
   * Level f+1 is level f together with the successors of the newest level
   * only: expanding the positions of older levels again adds nothing.
   */
  lemma NextLevel(canyon: seq<int>, f: nat)
    requires f >= 1
    ensures Within(canyon, f + 1) ==
            Within(canyon, f) + Succ(canyon, Within(canyon, f) - Within(canyon, f - 1))
  {
    var older, now := Within(canyon, f - 1), Within(canyon, f);
    forall j | j in Succ(canyon, now)
      ensures j in now + Succ(canyon, now - older)
    {
      var i :| i in now && Step(canyon, i, j);
      if i in older {
        assert j in Succ(canyon, older);
      } else {
        assert i in now - older;
      }
    }
    assert Root(canyon) <= now;
  }

  /** Growing a larger set gives a larger set. */
  lemma GrowMonotone(canyon: seq<int>, s: set<int>, t: set<int>)
    requires s <= t
    ensures Grow(canyon, s) <= Grow(canyon, t)
  {
    assert Succ(canyon, s) <= Succ(canyon, t);
  }

  /** Once a level adds nothing new, no level holds anything beyond it. */
  lemma {:induction false} Stable(canyon: seq<int>, g: nat, k: nat)
    requires Within(canyon, g + 1) == Within(canyon, g)
    ensures Within(canyon, k) <= Within(canyon, g)
  {
    if k <= g {
      WithinMonotone(canyon, k, g);
    } else {
      var p: nat := k - 1;
      Stable(canyon, g, p);
      GrowMonotone(canyon, Within(canyon, p), Within(canyon, g));
    }
  }

  /** Each level is closed downwards: every position before a reached one is reached too. */
  lemma {:induction false} DownClosed(canyon: seq<int>, k: nat, i: int, j: int)
    requires i in Within(canyon, k) && 0 <= j <= i
    ensures j in Within(canyon, k)
  {
    var prev := Within(canyon, k - 1);
    if i in Root(canyon) {
      assert j == 0;
    } else if i in prev {
      DownClosed(canyon, k - 1, i, j);
    } else {
      var x :| x in prev && Step(canyon, x, i);
      if j > x {
        assert Step(canyon, x, j);
        assert j in Succ(canyon, prev);
      } else {
        DownClosed(canyon, k - 1, x, j);
      }
    }
  }

  /** The k-th position of an accepted traversal lies in level k+1. */
  lemma {:induction false} AcceptedWithin(canyon: seq<int>, t: seq<int>, k: nat)
    requires Accepted(canyon, t) && k < |t|
    ensures t[k] in Within(canyon, k + 1)
  {
    if k == 0 {
      assert t[0] in Root(canyon);
    } else {
      AcceptedWithin(canyon, t, k - 1);
      var prev := Within(canyon, k);
      WithinMonotone(canyon, k, k + 1);
      if t[k] > t[k - 1] {
        assert Step(canyon, t[k - 1], t[k]);
        assert t[k] in Succ(canyon, prev);
      } else {
        DownClosed(canyon, k, t[k - 1], t[k]);
      }
    }
  }

  /** Every path is a traversal the tests accept. */
  lemma PathAccepted(canyon: seq<int>, p: seq<int>)
    requires IsPath(canyon, p)
    ensures Accepted(canyon, p) && p != []
  {
  }

  /** Every position of a level is the end of a walk no longer than the level number. */
  lemma {:induction false} WalkTo(canyon: seq<int>, k: nat, i: int) returns (w: seq<int>)
    requires i in Within(canyon, k)
    ensures IsWalk(canyon, w) && |w| <= k && w[|w| - 1] == i
  {
    var prev := Within(canyon, k - 1);
    if i in Root(canyon) {
      w := [0];
    } else if i in prev {
      w := WalkTo(canyon, k - 1, i);
    } else {
      var x :| x in prev && Step(canyon, x, i);
      var v := WalkTo(canyon, k - 1, x);
      w := v + [i];
      WalkExtend(canyon, v, i);
    }
  }

  /** A walk extended by one forward flight from its last position is a walk. */
  lemma WalkExtend(canyon: seq<int>, w: seq<int>, j: int)
    requires IsWalk(canyon, w) && Step(canyon, w[|w| - 1], j)
    ensures IsWalk(canyon, w + [j])
  {
    var v := w + [j];
    forall k | 0 <= k < |v| - 1
      ensures Step(canyon, v[k], v[k + 1])
    {
      if k < |w| - 1 {
        assert v[k] == w[k] && v[k + 1] == w[k + 1];
      }
    }
  }

  /**
   * If no position within the first f-1 levels exits, no accepted
   * non-empty traversal has fewer than f positions.
   */
  lemma ShortestAtLeast(canyon: seq<int>, f: nat)
    requires f >= 1 && NoExitIn(canyon, Within(canyon, f - 1))
    ensures forall t :: Accepted(canyon, t) && t != [] ==> f <= |t|
  {
    forall t | Accepted(canyon, t) && t != []
      ensures f <= |t|
    {
      var last := t[|t| - 1];
      AcceptedWithin(canyon, t, |t| - 1);
      if |t| < f {
        WithinMonotone(canyon, |t|, f - 1);
        assert false;
      }
    }
  }

  /**
   * A walk of f positions that exits, when nothing within the first f-1
   * levels exits, is a shortest path: no accepted traversal is shorter.
   */
  lemma ShortestPath(canyon: seq<int>, p: seq<int>, f: nat)
    requires IsWalk(canyon, p) && |p| == f && Exits(canyon, p[f - 1])
    requires NoExitIn(canyon, Within(canyon, f - 1))
    ensures IsPath(canyon, p) && Solvable(canyon) && Accepted(canyon, p)
    ensures forall t :: Accepted(canyon, t) && t != [] ==> |p| <= |t|
  {
    ShortestAtLeast(canyon, f);
    assert IsPath(canyon, p);
  }

  /**
   * Expanding the newest level f, of which nothing exits, gives level f+1;
   * then nothing within the first f levels exits.
   */
  lemma LevelAdvance(canyon: seq<int>, f: nat, frontier: set<int>)
    requires f >= 1 && frontier == Within(canyon, f) - Within(canyon, f - 1)
    requires NoExitIn(canyon, Within(canyon, f - 1)) && NoExitIn(canyon, frontier)
    ensures Within(canyon, f + 1) == Within(canyon, f) + Succ(canyon, frontier)
    ensures NoExitIn(canyon, Within(canyon, f))
  {
    NextLevel(canyon, f);
    WithinMonotone(canyon, f - 1, f);
    assert Within(canyon, f) == Within(canyon, f - 1) + frontier;
  }

  /**
   * If level f adds nothing to level f-1 and nothing there exits, there is
   * no path and no accepted traversal but the empty one.
   */
  lemma Unsolvable(canyon: seq<int>, f: nat)
    requires f >= 1 && Within(canyon, f) == Within(canyon, f - 1)
    requires NoExitIn(canyon, Within(canyon, f - 1))
    ensures !Solvable(canyon)
    ensures forall t :: Accepted(canyon, t) ==> t == []
  {
    forall t | Accepted(canyon, t)
      ensures t == []
    {
      OnlyEmpty(canyon, f, t);
    }
    forall p | IsPath(canyon, p)
      ensures false
    {
      PathAccepted(canyon, p);
      OnlyEmpty(canyon, f, p);
    }
  }

  /** One traversal at a time: with a closed, exit-free level, only the empty one is accepted. */
  lemma OnlyEmpty(canyon: seq<int>, f: nat, t: seq<int>)
    requires f >= 1 && Within(canyon, f) == Within(canyon, f - 1)
    requires NoExitIn(canyon, Within(canyon, f - 1))
    requires Accepted(canyon, t)
    ensures t == []
  {
    if t != [] {
      AcceptedInClosed(canyon, f - 1, t);
      assert false;
    }
  }

  /** When a level adds nothing, the last position of every accepted traversal lies in it. */
  lemma AcceptedInClosed(canyon: seq<int>, g: nat, t: seq<int>)
    requires Within(canyon, g + 1) == Within(canyon, g)
    requires Accepted(canyon, t) && t != []
    ensures t[|t| - 1] in Within(canyon, g)
  {
    var n := |t|;
    AcceptedWithin(canyon, t, n - 1);
    Stable(canyon, g, n);
  }

  /** A crossing exists exactly when some traversal is accepted besides the empty one. */
  lemma SolvableIffAccepted(canyon: seq<int>)
    ensures Solvable(canyon) <==> exists t :: Accepted(canyon, t) && t != []
  {
    if t :| Accepted(canyon, t) && t != [] {
      var n := |t|;
      AcceptedWithin(canyon, t, n - 1);
      var w := WalkTo(canyon, n, t[n - 1]);
      assert IsPath(canyon, w);
    }
    if p :| IsPath(canyon, p) {
      PathAccepted(canyon, p);
    }
  }
}
