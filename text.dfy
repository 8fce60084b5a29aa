/**
 * The textual side of the Dragon solver: the rule that admits the numbers
 * read from the input, and the line that reports a crossing.
 *
 * A crossing is reported as its positions in decimal, separated by ", " and
 * followed by ", out"; no crossing is reported as "failure". Unformat reads
 * such a line back, so that the report can be shown to lose nothing.
 */
module Text {

  datatype Option<T> = None | Some(value: T)

  const Out: string := "out"
  const Failure: string := "failure"
  const Separator: string := ", "

  /** Every number read is a possible canyon entry: none is negative. */
  predicate AllNatural(tokens: seq<int>)
  {
    forall i :: 0 <= i < |tokens| ==> tokens[i] >= 0
  }

  /**
   * Reads the numbers in order into the canyon, rejecting the input (None)
   * at the first negative number.
   */
  method Parse(tokens: seq<int>) returns (r: Option<seq<int>>)
    ensures r.Some? <==> AllNatural(tokens)
    ensures r.Some? ==> r.value == tokens
  {
    var built: seq<int> := [];
    var i := 0;
    while i < |tokens|
      invariant 0 <= i <= |tokens|
      invariant built == tokens[..i]
      invariant AllNatural(built)
    {
      var value := tokens[i];
      if value < 0 {
        return None;
      }
      built := built + [value];
      i := i + 1;
    }
    assert built == tokens;
    return Some(built);
  }

  predicate IsDigit(c: char)
  {
    '0' <= c <= '9'
  }

  predicate AllDigits(s: string)
  {
    forall i :: 0 <= i < |s| ==> IsDigit(s[i])
  }

  function Digit(d: int): char
    requires 0 <= d < 10
  {
    ('0' as int + d) as char
  }

  function DigitValue(c: char): int
    requires IsDigit(c)
  {
    c as int - '0' as int
  }

  /** The decimal digits of n, most significant first, without leading zeros. */
  function NatDigits(n: nat): (s: string)
    ensures |s| >= 1 && AllDigits(s)
    ensures s[0] == '0' <==> n == 0
  {
    if n < 10 then [Digit(n)] else NatDigits(n / 10) + [Digit(n % 10)]
  }

  /** The number a string of decimal digits denotes. */
  function ValueOf(s: string): nat
    requires AllDigits(s)
  {
    if s == [] then 0 else ValueOf(s[..|s| - 1]) * 10 + DigitValue(s[|s| - 1])
  }

  /** The digits of n denote n. */
  lemma {:induction false} DigitsValue(n: nat)
    ensures ValueOf(NatDigits(n)) == n
  {
    if n >= 10 {
      DigitsValue(n / 10);
      var s := NatDigits(n);
      assert s[..|s| - 1] == NatDigits(n / 10);
    }
  }

  /** How String.valueOf writes an int: a minus sign before the digits of a negative number. */
  function Decimal(x: int): (s: string)
    ensures |s| >= 1 && (IsDigit(s[0]) || s[0] == '-')
    ensures s[0] == '-' <==> x < 0
  {
    if x < 0 then "-" + NatDigits(-x) else NatDigits(x)
  }

  /** The decimals of a nonempty sequence, separated by ", ". */
  function Join(p: seq<int>): string
    requires |p| >= 1
  {
    if |p| == 1 then Decimal(p[0]) else Decimal(p[0]) + Separator + Join(p[1..])
  }

  /**
   * The report for a traversal: "failure" when it is empty, otherwise its
   * positions joined by ", " with ", out" after the last.
   */
  function Format(p: seq<int>): (s: string)
    ensures s == Failure <==> p == []
    ensures p != [] ==> |s| > |Separator + Out| && s[|s| - |Separator + Out|..] == Separator + Out
  {
    if p == [] then Failure
    else
      var s := Join(p) + Separator + Out;
      assert s[|s| - 1] != Failure[|Failure| - 1];
      s
  }

  /** The length of the longest prefix of s made of digits. */
  function DigitRun(s: string): (k: nat)
    ensures k <= |s| && AllDigits(s[..k])
    ensures k < |s| ==> !IsDigit(s[k])
  {
    if s != [] && IsDigit(s[0]) then 1 + DigitRun(s[1..]) else 0
  }

  /** Reads a natural number off the front of s, returning it and what follows. */
  function ParseNat(s: string): (r: Option<(nat, string)>)
    ensures r.Some? ==> |r.value.1| < |s|
  {
    var k := DigitRun(s);
    if k == 0 then None else Some((ValueOf(s[..k]), s[k..]))
  }

  /** Reads an integer, with an optional minus sign, off the front of s. */
  function ParseInt(s: string): (r: Option<(int, string)>)
    ensures r.Some? ==> |r.value.1| < |s|
  {
    if |s| > 0 && s[0] == '-' then
      match ParseNat(s[1..])
      case None => None
      case Some((v, rest)) =>
        Some((-(v as int), rest))
    else
      match ParseNat(s)
      case None => None
      case Some((v, rest)) => Some((v, rest))
  }

  /** Reads integers separated by ", " that make up all of s. */
  function ParseItems(s: string): (r: Option<seq<int>>)
    ensures r.Some? ==> |r.value| >= 1
    decreases |s|
  {
    match ParseInt(s)
    case None => None
    case Some((v, rest)) =>
      if rest == [] then Some([v])
      else if |rest| >= 2 && rest[..2] == Separator then
        match ParseItems(rest[2..])
        case None => None
        case Some(vs) => Some([v] + vs)
      else None
  }

  /** Reads a report back into the traversal it reports. */
  function Unformat(s: string): Option<seq<int>>
  {
    var tail := Separator + Out;
    if s == Failure then Some([])
    else if |s| > |tail| && s[|s| - |tail|..] == tail then ParseItems(s[..|s| - |tail|])
    else None
  }

  /** The digit run stops exactly where the digits do. */
  lemma {:induction false} DigitRunStops(d: string, rest: string)
    requires AllDigits(d)
    requires rest == [] || !IsDigit(rest[0])
    ensures DigitRun(d + rest) == |d|
  {
    if d != [] {
      assert (d + rest)[1..] == d[1..] + rest;
      DigitRunStops(d[1..], rest);
    } else {
      assert d + rest == rest;
    }
  }

  /** The digits of n, followed by something that is not a digit, read back as n. */
  lemma NatRoundTrip(n: nat, rest: string)
    requires rest == [] || !IsDigit(rest[0])
    ensures ParseNat(NatDigits(n) + rest) == Some((n, rest))
  {
    var d := NatDigits(n);
    DigitRunStops(d, rest);
    assert (d + rest)[..|d|] == d;
    assert (d + rest)[|d|..] == rest;
    DigitsValue(n);
  }

  /** A minus sign before digits reads back as the negated number. */
  lemma SignedRoundTrip(n: nat, rest: string)
    requires rest == [] || !IsDigit(rest[0])
    ensures ParseInt("-" + NatDigits(n) + rest) == Some((-(n as int), rest))
  {
    var s := "-" + NatDigits(n) + rest;
    assert s[1..] == NatDigits(n) + rest;
    NatRoundTrip(n, rest);
  }

  /** Digits alone read back as the number. */
  lemma UnsignedRoundTrip(n: nat, rest: string)
    requires rest == [] || !IsDigit(rest[0])
    ensures ParseInt(NatDigits(n) + rest) == Some((n, rest))
  {
    var s := NatDigits(n) + rest;
    assert s[0] == NatDigits(n)[0];
    NatRoundTrip(n, rest);
  }

  /** Every decimal, followed by something that is not a digit, reads back as itself. */
  lemma DecimalRoundTrip(x: int, rest: string)
    requires rest == [] || !IsDigit(rest[0])
    ensures ParseInt(Decimal(x) + rest) == Some((x, rest))
  {
    if x < 0 {
      SignedRoundTrip(-x, rest);
    } else {
      UnsignedRoundTrip(x, rest);
    }
  }

  /** The joined decimals read back as the sequence they were made from. */
  lemma {:induction false} JoinRoundTrip(p: seq<int>)
    requires |p| >= 1
    ensures ParseItems(Join(p)) == Some(p)
  {
    if |p| == 1 {
      var head := Decimal(p[0]);
      DecimalRoundTrip(p[0], []);
      assert head + [] == head == Join(p);
      assert ParseInt(head) == Some((p[0], []));
      assert p == [p[0]];
    } else {
      var head, tail := Decimal(p[0]), Join(p[1..]);
      var rest := Separator + tail;
      assert Join(p) == head + rest;
      DecimalRoundTrip(p[0], rest);
      assert rest[..2] == Separator && rest[2..] == tail;
      JoinRoundTrip(p[1..]);
      assert ParseItems(head + rest) == Some([p[0]] + p[1..]);
      assert [p[0]] + p[1..] == p;
    }
  }

  /** A report reads back as exactly the traversal it reports: formatting loses nothing. */
  lemma FormatRoundTrip(p: seq<int>)
    ensures Unformat(Format(p)) == Some(p)
  {
    if p != [] {
      var s := Format(p);
      assert s[..|s| - |Separator + Out|] == Join(p);
      JoinRoundTrip(p);
    }
  }

  /** Different traversals get different reports. */
  lemma FormatInjective(p: seq<int>, q: seq<int>)
    requires Format(p) == Format(q)
    ensures p == q
  {
    FormatRoundTrip(p);
    FormatRoundTrip(q);
  }

  /** The reports of the empty traversal, of the one-position crossing and of the sample crossing. */
  lemma FormatExamples()
    ensures Format([]) == "failure"
    ensures Format([0]) == "0, out"
    ensures Format([0, 5, 9]) == "0, 5, 9, out"
  {
    assert Decimal(0) == "0";
    assert Decimal(5) == "5";
    assert Decimal(9) == "9";
  }
}
