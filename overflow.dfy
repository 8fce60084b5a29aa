/**
 * The landing position of a flight, as Java's 32-bit int arithmetic computes
 * it: lastIndex + flight wraps around past 2^31 - 1.
 *
 * The rest of the model adds positions and flight lengths without bound,
 * which is what the search is evidently meant to do; this module shows
 * the input on which the two differ.
 */
module Overflow {
  import opened Course

  const IntMin: int := -0x8000_0000
  const IntMax: int := 0x7fff_ffff

  predicate IsInt(x: int)
  {
    IntMin <= x <= IntMax
  }

  /** Two's-complement wrap-around of a mathematical integer into the int range. */
  function Wrap(x: int): (r: int)
    ensures IsInt(r)
    ensures (r - x) % 0x1_0000_0000 == 0
    ensures IsInt(x) ==> r == x
  {
    (x - IntMin) % 0x1_0000_0000 + IntMin
  }

  /** The landing position as the search computes it from a position and a flight length. */
  function NextIndex(lastIndex: int, flight: int): (r: int)
    requires IsInt(lastIndex) && IsInt(flight)
    ensures IsInt(r)
    ensures lastIndex >= 0 && flight >= 0 && lastIndex + flight <= IntMax ==> r == lastIndex + flight
    ensures lastIndex >= 0 && flight >= 0 && r < lastIndex ==> lastIndex + flight > IntMax && r < 0
  {
    Wrap(lastIndex + flight)
  }

  /** The canyon 1 2147483647: a crossing 0 1 exists, but the flight from 1 lands on a negative index. */
  const Huge: seq<int> := [1, IntMax]

  /**
   * On the canyon 1 2147483647 the longest flight from position 1 wraps to
   * a negative index: it does not count as clearing the canyon, and it is
   * not a position either, although position 1 does exit the canyon.
   */
  lemma WrappedLanding()
    ensures IsPath(Huge, [0, 1])
    ensures NextIndex(1, Huge[1]) < 0
    ensures !(NextIndex(1, Huge[1]) >= |Huge|) && Exits(Huge, 1)
  {
    assert Step(Huge, 0, 1);
  }
}
