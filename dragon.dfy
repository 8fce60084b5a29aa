/**
 * The Dragon challenge solver: a breadth-first search over the positions of
 * the canyon that returns a shortest crossing, or the empty sequence when
 * there is none.
 *
 * The search keeps, for every position, whether it has been visited and the
 * position it was first reached from (an index-addressed parent array; -1
 * marks the start, which has no predecessor). The queue holds positions in
 * the order they were discovered; `head` is the index of its first entry.
 */
module Dragon {
  import opened Course
  import Text

  /** The positions q[lo], ..., q[hi-1] as a set. */
  ghost function Elems(q: seq<int>, lo: int, hi: int): set<int>
    requires 0 <= lo <= hi <= |q|
  {
    set k | lo <= k < hi :: q[k]
  }

  lemma ElemsNext(q: seq<int>, lo: int, hi: int)
    requires 0 <= lo <= hi < |q|
    ensures Elems(q, lo, hi + 1) == Elems(q, lo, hi) + {q[hi]}
  {
  }

  lemma ElemsAppend(q: seq<int>, x: int, lo: int, hi: int)
    requires 0 <= lo <= hi <= |q|
    ensures Elems(q + [x], lo, hi) == Elems(q, lo, hi)
    ensures Elems(q + [x], lo, |q| + 1) == Elems(q, lo, |q|) + {x}
  {
    var r := q + [x];
    assert forall k :: lo <= k < |q| ==> r[k] == q[k];
    assert r[|q|] == x;
    assert Elems(r, lo, |q| + 1) == Elems(r, lo, |q|) + {x} by {
      ElemsNext(r, lo, |q|);
    }
  }

  lemma ElemsSplit(q: seq<int>, lo: int, mid: int, hi: int)
    requires 0 <= lo <= mid <= hi <= |q|
    ensures Elems(q, lo, hi) == Elems(q, lo, mid) + Elems(q, mid, hi)
  {
  }

  lemma ElemsPrefix(q: seq<int>, r: seq<int>, lo: int, hi: int)
    requires 0 <= lo <= hi <= |q| <= |r| && r[..|q|] == q
    ensures Elems(r, lo, hi) == Elems(q, lo, hi)
  {
    assert forall k :: lo <= k < hi ==> r[k] == r[..|q|][k];
  }

  /** The positions reached by the flights from u that are longer than g. */
  ghost function Longer(canyon: seq<int>, u: int, g: int): set<int>
  {
    set j | 0 <= j < |canyon| && Step(canyon, u, j) && u + g < j
  }

  /** One flight shorter: the position u+g joins the positions already reached. */
  lemma LongerNext(canyon: seq<int>, u: int, g: int)
    requires 0 <= u < |canyon| && 1 <= g <= canyon[u] && u + g < |canyon|
    ensures Longer(canyon, u, g - 1) == Longer(canyon, u, g) + {u + g}
  {
    assert Step(canyon, u, u + g);
  }

  lemma PrefixAppend(q: seq<int>, x: int, n: int)
    requires 0 <= n <= |q|
    ensures (q + [x])[..n] == q[..n]
  {
  }

  /**
   * The search tree behind the parent array: every visited position other
   * than 0 was reached by one forward flight from a visited position one
   * level up; 0 is the root, the only position at level 1.
   */
  ghost predicate ParentLinks(canyon: seq<int>, seen: set<int>, parent: array<int>, depth: seq<int>)
    reads parent
  {
    parent.Length == |canyon| && |depth| == |canyon| &&
    (forall v :: v in seen ==> 0 <= v < |canyon| && depth[v] >= 1) &&
    (0 in seen ==> parent[0] == -1 && depth[0] == 1) &&
    (forall v {:trigger parent[v]} :: v in seen && v != 0 ==>
       parent[v] in seen && Step(canyon, parent[v], v) && depth[v] == depth[parent[v]] + 1)
  }

  /** No position occurs twice in q. */
  ghost predicate Distinct(q: seq<int>)
  {
    forall a, b :: 0 <= a < b < |q| ==> q[a] != q[b]
  }

  /** A sequence of distinct positions below n has at most n elements. */
  lemma {:induction false} DistinctBound(q: seq<int>, n: nat)
    requires Distinct(q) && forall k :: 0 <= k < |q| ==> 0 <= q[k] < n
    ensures |q| <= n
  {
    if |q| == 0 {
    } else if i :| 0 <= i < |q| && q[i] == n - 1 {
      var r := q[..i] + q[i + 1..];
      assert forall k :: 0 <= k < |r| ==> r[k] == if k < i then q[k] else q[k + 1];
      DistinctBound(r, n - 1);
    } else {
      assert 0 <= q[0] < n;
      DistinctBound(q, n - 1);
    }
  }

  /** The queue lists visited positions, each once. */
  ghost predicate Queued(queue: seq<int>, seen: set<int>)
  {
    (forall k :: 0 <= k < |queue| ==> queue[k] in seen) && Distinct(queue)
  }

  /**
   * The bookkeeping of the search: the visited markers are exactly the
   * visited set, the parent array forms the search tree, and the queue lists
   * every visited position once.
   */
  ghost predicate Searching(canyon: seq<int>, visited: array<bool>, parent: array<int>,
                            queue: seq<int>, seen: set<int>, depth: seq<int>)
    reads visited, parent
  {
    visited.Length == |canyon| && |queue| <= |canyon| &&
    (forall i :: 0 <= i < |canyon| ==> (visited[i] <==> i in seen)) &&
    ParentLinks(canyon, seen, parent, depth) && Queued(queue, seen)
  }

  /**
   * Walks the parent links back from `last`, filling the result from the
   * right, and returns the positions from the start to `last`.
   */
  method Reconstruct(canyon: seq<int>, parent: array<int>, ghost seen: set<int>, ghost depth: seq<int>,
                     last: int, flights: int)
    returns (path: seq<int>)
    requires ParentLinks(canyon, seen, parent, depth)
    requires last in seen && depth[last] == flights
    ensures IsWalk(canyon, path) && |path| == flights && path[flights - 1] == last
    ensures parent[path[0]] == -1
    ensures forall k :: 0 < k < flights ==> parent[path[k]] == path[k - 1]
  {
    var result := new int[flights];
    var node := last;
    var index := flights;
    while index > 0
      invariant 0 <= index <= flights
      invariant index > 0 ==> node in seen && depth[node] == index
      invariant index == 0 ==> node == -1
      invariant index == flights ==> node == last
      invariant index < flights ==> result[flights - 1] == last
      invariant forall k :: index <= k < flights ==> result[k] in seen && depth[result[k]] == k + 1
      invariant index < flights ==> parent[result[index]] == node
      invariant forall k :: index < k < flights ==> parent[result[k]] == result[k - 1]
      invariant forall k :: index <= k < flights - 1 ==> Step(canyon, result[k], result[k + 1])
    {
      index := index - 1;
      result[index] := node;
      node := parent[node];
    }
    // the chain ends at the root, which has no predecessor
    assert node == -1;
    path := result[..];
  }

  /**
   * Enqueues the position `next`, first reached by a flight from `from`:
   * marks it visited and links it to its predecessor.
   */
  method Visit(canyon: seq<int>, visited: array<bool>, parent: array<int>, queue: seq<int>,
               from: int, next: int, ghost seen: set<int>, ghost depth: seq<int>)
    returns (queue': seq<int>, ghost seen': set<int>, ghost depth': seq<int>)
    requires Searching(canyon, visited, parent, queue, seen, depth)
    requires from in seen && next !in seen && Step(canyon, from, next)
    modifies visited, parent
    ensures Searching(canyon, visited, parent, queue', seen', depth')
    ensures queue' == queue + [next] && seen' == seen + {next}
    ensures depth' == depth[next := depth[from] + 1]
    ensures visited[next] && parent[next] == from
    ensures forall v {:trigger visited[v]} :: 0 <= v < visited.Length && v != next ==> visited[v] == old(visited[v])
    ensures forall v {:trigger parent[v]} :: 0 <= v < parent.Length && v != next ==> parent[v] == old(parent[v])
  {
    queue' := queue + [next];
    DistinctBound(queue', |canyon|);
    visited[next] := true;
    parent[next] := from;
    seen' := seen + {next};
    depth' := depth[next := depth[from] + 1];
  }

  /**
   * Tries the flights from `lastIndex`, the longest first. Because the
   * longest is tried first, when any flight clears the canyon the first one
   * does; otherwise every position one flight away that was not visited yet
   * is enqueued for the next round.
   */
  method Expand(canyon: seq<int>, visited: array<bool>, parent: array<int>, queue: seq<int>,
                lastIndex: int, ghost seen: set<int>, ghost depth: seq<int>)
    returns (crossed: bool, queue': seq<int>, ghost seen': set<int>, ghost depth': seq<int>)
    requires Searching(canyon, visited, parent, queue, seen, depth)
    requires lastIndex in seen
    modifies visited, parent
    ensures Searching(canyon, visited, parent, queue', seen', depth')
    ensures crossed <==> Exits(canyon, lastIndex)
    ensures !crossed ==> seen' == seen + Flights(canyon, lastIndex)
    ensures |queue| <= |queue'| && queue'[..|queue|] == queue
    ensures Elems(queue', |queue|, |queue'|) == seen' - seen
    ensures forall v :: v in seen ==> depth'[v] == depth[v]
    ensures forall v :: v in seen' - seen ==> depth'[v] == depth[lastIndex] + 1
    ensures forall v {:trigger parent[v]} :: v in seen' && v !in seen ==> parent[v] == lastIndex
    ensures forall v {:trigger parent[v]} :: 0 <= v < parent.Length && (v in seen || v !in seen') ==>
              parent[v] == old(parent[v])
  {
    queue', seen', depth' := queue, seen, depth;
    ghost var links := parent[..];
    var flight := canyon[lastIndex];
    // a dragon at lastIndex (flight <= 0) leaves the loop below without a step
    while flight > 0
      invariant flight <= canyon[lastIndex]
      invariant flight < canyon[lastIndex] ==> !Exits(canyon, lastIndex)
      invariant Searching(canyon, visited, parent, queue', seen', depth')
      invariant seen' == seen + Longer(canyon, lastIndex, flight)
      invariant |queue| <= |queue'| && queue'[..|queue|] == queue
      invariant Elems(queue', |queue|, |queue'|) == seen' - seen
      invariant forall v :: v in seen ==> depth'[v] == depth[v]
      invariant forall v :: v in seen' - seen ==> depth'[v] == depth[lastIndex] + 1
      invariant forall v {:trigger parent[v]} :: v in seen' && v !in seen ==> parent[v] == lastIndex
      invariant forall v {:trigger parent[v]} :: 0 <= v < |links| && (v in seen || v !in seen') ==> parent[v] == links[v]
    {
      var nextIndex := lastIndex + flight;
      if nextIndex >= |canyon| {
        // the canyon is crossed
        return true, queue', seen', depth';
      }
      LongerNext(canyon, lastIndex, flight);
      if !visited[nextIndex] {
        ElemsAppend(queue', nextIndex, |queue|, |queue'|);
        PrefixAppend(queue', nextIndex, |queue|);
        queue', seen', depth' := Visit(canyon, visited, parent, queue', lastIndex, nextIndex, seen', depth');
      }
      flight := flight - 1;
    }
    crossed := false;
  }

  /**
   * One round of the search: expands, in queue order, exactly the positions
   * that were queued when the round began (the frontier), and stops at the
   * first flight that clears the canyon.
   */
  method Round(canyon: seq<int>, visited: array<bool>, parent: array<int>, queue: seq<int>, head: int,
               ghost seen: set<int>, ghost depth: seq<int>, ghost flights: int)
    returns (crossed: bool, lastIndex: int, queue': seq<int>, head': int,
             ghost seen': set<int>, ghost depth': seq<int>)
    requires Searching(canyon, visited, parent, queue, seen, depth)
    requires 0 <= head <= |queue|
    requires forall v :: v in Elems(queue, head, |queue|) ==> depth[v] == flights
    modifies visited, parent
    ensures Searching(canyon, visited, parent, queue', seen', depth')
    ensures crossed ==> lastIndex in seen' && depth'[lastIndex] == flights && Exits(canyon, lastIndex)
    ensures !crossed ==> head' == |queue| <= |queue'| && queue'[..|queue|] == queue
    ensures !crossed ==> seen' == seen + Succ(canyon, Elems(queue, head, |queue|))
    ensures !crossed ==> Elems(queue', head', |queue'|) == seen' - seen
    ensures !crossed ==> NoExitIn(canyon, Elems(queue, head, |queue|))
    ensures !crossed ==> forall v :: v in seen ==> depth'[v] == depth[v]
    ensures !crossed ==> forall v :: v in seen' - seen ==> depth'[v] == flights + 1
    ensures !crossed ==> forall v {:trigger parent[v]} :: v in seen' && v !in seen ==>
              parent[v] in Elems(queue, head, |queue|)
    ensures !crossed ==> forall v {:trigger parent[v]} :: 0 <= v < parent.Length && (v in seen || v !in seen') ==>
              parent[v] == old(parent[v])
  {
    var roundEnd := |queue|;
    queue', head', seen', depth' := queue, head, seen, depth;
    ghost var links := parent[..];
    lastIndex := -1;
    while head' < roundEnd
      invariant head <= head' <= roundEnd <= |queue'| && queue'[..roundEnd] == queue
      invariant Searching(canyon, visited, parent, queue', seen', depth')
      invariant seen' == seen + Succ(canyon, Elems(queue, head, head'))
      invariant Elems(queue', roundEnd, |queue'|) == seen' - seen
      invariant NoExitIn(canyon, Elems(queue, head, head'))
      invariant forall v :: v in seen ==> depth'[v] == depth[v]
      invariant forall v :: v in seen' - seen ==> depth'[v] == flights + 1
      invariant forall v {:trigger parent[v]} :: v in seen' && v !in seen ==> parent[v] in Elems(queue, head, head')
      invariant forall v {:trigger parent[v]} :: 0 <= v < |links| && (v in seen || v !in seen') ==> parent[v] == links[v]
      decreases roundEnd - head'
    {
      assert queue'[head'] == queue'[..roundEnd][head'];
      lastIndex := queue'[head'];
      ghost var done := Elems(queue, head, head');
      ghost var succ := Succ(canyon, done);
      ElemsNext(queue, head, head');
      SuccAdd(canyon, done, lastIndex);
      assert lastIndex in Elems(queue, head, |queue|);
      head' := head' + 1;
      ghost var before, seenBefore := queue', seen';
      assert seenBefore == seen + succ;
      crossed, queue', seen', depth' := Expand(canyon, visited, parent, queue', lastIndex, seen', depth');
      if crossed {
        return;
      }
      assert seen' == seen + (succ + Flights(canyon, lastIndex));
      assert Elems(queue, head, head') == done + {lastIndex};
      assert Succ(canyon, done + {lastIndex}) == succ + Flights(canyon, lastIndex);
      PrefixTrans(queue, before, queue');
      ElemsSplit(queue', roundEnd, |before|, |queue'|);
      ElemsPrefix(before, queue', roundEnd, |before|);
      assert seen' - seen == (seenBefore - seen) + (seen' - seenBefore);
    }
    crossed := false;
  }

  lemma PrefixTrans(a: seq<int>, b: seq<int>, c: seq<int>)
    requires |a| <= |b| <= |c| && b[..|a|] == a && c[..|b|] == b
    ensures c[..|a|] == a
  {
    assert c[..|a|] == c[..|b|][..|a|];
  }

  /** The search starts from position 0 alone, when the canyon has one. */
  method Start(canyon: seq<int>, visited: array<bool>, parent: array<int>)
    returns (queue: seq<int>, ghost seen: set<int>, ghost depth: seq<int>)
    requires visited.Length == |canyon| && parent.Length == |canyon|
    requires forall i :: 0 <= i < |canyon| ==> !visited[i] && parent[i] == -1
    modifies visited
    ensures Searching(canyon, visited, parent, queue, seen, depth)
    ensures seen == Within(canyon, 1) == Elems(queue, 0, |queue|)
    ensures forall v :: v in seen ==> depth[v] == 1
  {
    depth := seq(|canyon|, _ => 0);
    seen := {};
    queue := [];
    if |canyon| > 0 {
      // visit the first position
      queue := [0];
      visited[0] := true;
      seen := {0};
      depth := depth[0 := 1];
      ElemsNext(queue, 0, 0);
    }
  }

  /**
   * The breadth-first search itself: one round per number of positions, the
   * queue in discovery order, the flights of each position longest first.
   * It stops at the first flight that clears the canyon, reporting the
   * position it left from, or when the queue runs dry.
   */
  method Search(canyon: seq<int>, visited: array<bool>, parent: array<int>)
    returns (crossed: bool, lastIndex: int, flights: nat, ghost seen: set<int>, ghost depth: seq<int>)
    requires visited.Length == |canyon| && parent.Length == |canyon|
    requires forall i :: 0 <= i < |canyon| ==> !visited[i] && parent[i] == -1
    modifies visited, parent
    ensures flights >= 1 && ParentLinks(canyon, seen, parent, depth)
    ensures NoExitIn(canyon, Within(canyon, flights - 1))
    ensures crossed ==> lastIndex in seen && depth[lastIndex] == flights && Exits(canyon, lastIndex)
    ensures !crossed ==> Within(canyon, flights) == Within(canyon, flights - 1)
  {
    var queue;
    queue, seen, depth := Start(canyon, visited, parent);
    var head := 0;
    flights := 1;
    while head < |queue|
      invariant flights >= 1 && 0 <= head <= |queue|
      invariant Searching(canyon, visited, parent, queue, seen, depth)
      invariant seen == Within(canyon, flights)
      invariant Elems(queue, head, |queue|) == Within(canyon, flights) - Within(canyon, flights - 1)
      invariant NoExitIn(canyon, Within(canyon, flights - 1))
      invariant forall v :: v in Elems(queue, head, |queue|) ==> depth[v] == flights
      decreases |canyon| - head
    {
      ghost var frontier := Elems(queue, head, |queue|);
      crossed, lastIndex, queue, head, seen, depth := Round(canyon, visited, parent, queue, head, seen, depth, flights);
      if crossed {
        return;
      }
      LevelAdvance(canyon, flights, frontier);
      flights := flights + 1;
    }
    // the queue ran dry: the last level added nothing
    assert Within(canyon, flights) == Within(canyon, flights - 1) by {
      assert Elems(queue, head, |queue|) == {};
      WithinMonotone(canyon, flights - 1, flights);
    }
    crossed, lastIndex := false, -1;
  }

  /**
   * A shortest crossing of the canyon, as the positions landed on in order
   * starting from 0, or the empty sequence when there is none.
   */
  method Solve(canyon: seq<int>) returns (result: seq<int>)
    ensures result != [] ==> IsPath(canyon, result)
    ensures result == [] <==> !Solvable(canyon)
    ensures Accepted(canyon, result)
    ensures forall t :: Accepted(canyon, t) && t != [] ==> |result| <= |t|
  {
    var visited := new bool[|canyon|](_ => false);
    var parent := new int[|canyon|](_ => -1);
    var crossed, lastIndex, flights, seen, depth := Search(canyon, visited, parent);
    if crossed {
      // the canyon is crossed: walk the parent links back to the start
      result := Reconstruct(canyon, parent, seen, depth, lastIndex, flights);
      ShortestPath(canyon, result, flights);
    } else {
      // no solution
      Unsolvable(canyon, flights);
      result := [];
    }
  }

  /**
   * One run of the solver on the numbers read from the input: the reported
   * line is "failure" both when a number is rejected and when the canyon
   * has no crossing, and otherwise the report of a shortest crossing.
   */
  method Answer(tokens: seq<int>) returns (line: string, ghost path: seq<int>)
    ensures !Text.AllNatural(tokens) ==> line == Text.Failure
    ensures Text.AllNatural(tokens) ==> line == Text.Format(path) && Accepted(tokens, path)
    ensures Text.AllNatural(tokens) ==> forall t :: Accepted(tokens, t) && t != [] ==> |path| <= |t|
    ensures line == Text.Failure <==> !Text.AllNatural(tokens) || !Solvable(tokens)
  {
    var canyon := Text.Parse(tokens);
    if canyon.None? {
      return Text.Failure, [];
    }
    var result := Solve(canyon.value);
    line, path := Text.Format(result), result;
  }
}
