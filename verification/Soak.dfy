/** The tolerance of a soak attestation's derived rates (publisher/vexa_channel.py:3178-3199). */
module Soak {

  /** `round` to an integer: the nearest, and of two equally near the even one. */
  function RoundHalfEven(y: real): (r: int)
    ensures y - 0.5 <= r as real <= y + 0.5
  {
    var f := y.Floor;
    var d := y - f as real;
    if d < 0.5 then f else if d > 0.5 then f + 1 else if f % 2 == 0 then f else f + 1
  }

  function Share(count: int, n: nat): (r: real)
    requires n >= 1
  {
    count as real / n as real
  }

  lemma ShareTimes(count: int, n: nat)
    requires n >= 1
    ensures Share(count, n) * n as real == count as real
  {
  }

  /** `round(x, 6)`, in millionths. */
  function Micro(x: real): int { RoundHalfEven(x * 1000000.0) }

  function Abs(x: real): real { if x < 0.0 then -x else x }

  predicate RateFits(rate: real, exact: real) {
    Abs(rate - Micro(exact) as real / 1000000.0) <= 0.000001
  }

  datatype Row = Row(
    dispatched: nat, failures: int, completed: int, successRate: real, completionRate: real,
    reasons: seq<(string, int)>, hasReasons: bool)

  function Sum(reasons: seq<(string, int)>): int {
    if reasons == [] then 0 else Sum(reasons[..|reasons| - 1]) + reasons[|reasons| - 1].1
  }

  function Count(reasons: seq<(string, int)>, reason: string): int {
    if reasons == [] then 0
    else if reasons[|reasons| - 1].0 == reason then reasons[|reasons| - 1].1
    else Count(reasons[..|reasons| - 1], reason)
  }

  /** The row's own arithmetic: both rates follow from the counts, and the exit reasons, if given, add up. */
  predicate Consistent(row: Row)
    requires row.dispatched >= 1
  {
    && RateFits(row.successRate, 1.0 - Share(row.failures, row.dispatched))
    && RateFits(row.completionRate, Share(row.completed, row.dispatched))
    && (row.hasReasons ==>
          && Sum(row.reasons) == row.dispatched
          && Count(row.reasons, "JOIN_FAILURE") + Count(row.reasons, "AUTH_SESSION_MISSING") == row.failures)
  }

  /** An accepted rate is within a unit and a half of the last place of the true one. */
  lemma RateIsClose(rate: real, exact: real)
    requires RateFits(rate, exact)
    ensures Abs(rate - exact) <= 0.0000015
  {
  }

  /** The failures that a rate stands for. */
  function FailuresOf(rate: real, n: nat): int { ((1.0 - rate) * n as real + 0.5).Floor }

  lemma ScaleBound(x: real, n: nat, eps: real)
    requires Abs(x) <= eps && n >= 1
    ensures Abs(x * n as real) <= eps * n as real
  {
  }

  lemma CountIsClose(rate: real, f: int, n: nat)
    requires 1 <= n <= 333333 && RateFits(rate, 1.0 - Share(f, n))
    ensures Abs((1.0 - rate) * n as real - f as real) < 0.5
  {
    var share, m := Share(f, n), n as real;
    RateIsClose(rate, 1.0 - share);
    ScaleBound(1.0 - rate - share, n, 0.0000015);
    ShareTimes(f, n);
    assert (1.0 - rate - share) * m == (1.0 - rate) * m - share * m;
  }

  lemma NearestIs(y: real, f: int)
    requires Abs(y - f as real) < 0.5
    ensures (y + 0.5).Floor == f
  {
  }

  /** Up to 333333 meetings the rate fixes the number of failures: round `(1 - rate) * dispatched`. */
  lemma RateGivesFailures(row: Row)
    requires 1 <= row.dispatched <= 333333 && Consistent(row)
    ensures FailuresOf(row.successRate, row.dispatched) == row.failures
    ensures row.hasReasons ==>
      FailuresOf(row.successRate, row.dispatched)
      == Count(row.reasons, "JOIN_FAILURE") + Count(row.reasons, "AUTH_SESSION_MISSING")
  {
    CountIsClose(row.successRate, row.failures, row.dispatched);
    NearestIs((1.0 - row.successRate) * row.dispatched as real, row.failures);
  }

  // ---------------------------------------------------------------- the limit is exact

  /** Two different failure counts out of `n` that one rate is accepted for. */
  ghost predicate Ambiguous(n: nat, f: int, g: int, rate: real)
    requires n >= 1
  {
    && 0 <= f < g <= n
    && RateFits(rate, 1.0 - Share(f, n)) && RateFits(rate, 1.0 - Share(g, n))
  }

  ghost predicate RateDecides(n: nat)
    requires n >= 1
  {
    forall f, g, rate :: !Ambiguous(n, f, g, rate)
  }

  function Rounded(f: int, n: nat): int
    requires n >= 1
  {
    Micro(1.0 - Share(f, n))
  }

  lemma Ends(n: nat)
    requires n >= 1
    ensures Rounded(0, n) == 1000000 && Rounded(n, n) == 0
  {
    ShareTimes(0, n);
    assert Share(n, n) == 1.0;
    assert Share(0, n) == 0.0;
  }

  lemma StepsDown(f: int, n: nat)
    requires n >= 1
    ensures Rounded(f, n) >= Rounded(f + 1, n) - 1
  {
    assert Share(f, n) <= Share(f + 1, n);
  }

  /** The rounded rate falls by a million in `n` steps, so with more than 333333 steps one is of two or less. */
  lemma {:induction false} ShortStep(n: nat, k: nat) returns (f: nat)
    requires n >= 1 && k <= n && Rounded(0, n) - Rounded(k, n) < 3 * k
    ensures f < k && Rounded(f, n) - Rounded(f + 1, n) <= 2
  {
    if Rounded(k - 1, n) - Rounded(k, n) <= 2 {
      f := k - 1;
    } else {
      f := ShortStep(n, k - 1);
    }
  }

  lemma MidpointFits(f: int, n: nat)
    requires n >= 1 && 0 <= f < n && Rounded(f, n) - Rounded(f + 1, n) <= 2
    ensures Ambiguous(n, f, f + 1, (Rounded(f, n) + Rounded(f + 1, n)) as real / 2000000.0)
  {
    StepsDown(f, n);
  }

  lemma AmbiguousNeedsMany(n: nat, f: int, g: int, rate: real)
    requires n >= 1 && Ambiguous(n, f, g, rate)
    ensures n > 333333
  {
    if n <= 333333 {
      var a := Row(n, f, 0, rate, 0.0, [], false);
      var b := a.(failures := g);
      assert Consistent(a) && Consistent(b) by {
        assert Share(0, n) == 0.0;
      }
      RateGivesFailures(a);
      RateGivesFailures(b);
    }
  }

  /** The rate alone decides the failure count exactly up to 333333 meetings. */
  lemma RateDecidesIff(n: nat)
    requires n >= 1
    ensures RateDecides(n) <==> n <= 333333
  {
    if n <= 333333 {
      forall f, g, rate ensures !Ambiguous(n, f, g, rate) {
        if Ambiguous(n, f, g, rate) {
          AmbiguousNeedsMany(n, f, g, rate);
        }
      }
    } else {
      Ends(n);
      var f := ShortStep(n, n);
      MidpointFits(f, n);
    }
  }

  /** Every platform row is checked; the first that does not add up refuses the attestation. */
  method CheckSoakConsistency(rows: seq<Row>) returns (refused: bool, at: nat)
    requires forall i | 0 <= i < |rows| :: rows[i].dispatched >= 1
    ensures refused <==> exists i :: 0 <= i < |rows| && !Consistent(rows[i])
    ensures refused ==> at < |rows| && !Consistent(rows[at]) && forall i | 0 <= i < at :: Consistent(rows[i])
  {
    at := 0;
    while at < |rows|
      invariant at <= |rows|
      invariant forall i | 0 <= i < at :: Consistent(rows[i])
    {
      if !Consistent(rows[at]) {
        return true, at;
      }
      at := at + 1;
    }
    return false, at;
  }

  // ---------------------------------------------------------------- the arithmetic, written out

  /** `m` is a nearest integer to `y`, and even when there are two. */
  ghost predicate Nearest(m: int, y: real) {
    var off := Abs(y - m as real);
    off < 0.5 || (off == 0.5 && m % 2 == 0)
  }

  lemma RoundIff(y: real, m: int)
    ensures RoundHalfEven(y) == m <==> Nearest(m, y)
  {
    var r := RoundHalfEven(y);
    assert Nearest(r, y);
    if Nearest(m, y) {
      assert Abs(m as real - r as real) <= 1.0;
      assert -1 <= m - r <= 1;
    }
  }

  /** Within a millionth of the exact quotient, rounded to millionths. */
  ghost predicate RoundsTo(rate: real, exact: real) {
    exists m: int :: FitsAt(rate, exact, m)
  }

  ghost predicate FitsAt(rate: real, exact: real, m: int) {
    Nearest(m, exact * 1000000.0) && m as real - 1.0 <= rate * 1000000.0 <= m as real + 1.0
  }

  lemma RateFitsIff(rate: real, exact: real)
    ensures RateFits(rate, exact) <==> RoundsTo(rate, exact)
  {
    RoundIff(exact * 1000000.0, Micro(exact));
    if RateFits(rate, exact) {
      assert FitsAt(rate, exact, Micro(exact));
    }
    if m: int :| FitsAt(rate, exact, m) {
      RoundIff(exact * 1000000.0, m);
    }
  }

  ghost predicate NamedOnce(reasons: seq<(string, int)>) {
    forall i, j | 0 <= i < j < |reasons| :: reasons[i].0 != reasons[j].0
  }

  /** The number beside the reason, or zero when it is not named. */
  ghost predicate Given(reasons: seq<(string, int)>, reason: string, n: int) {
    (reason, n) in reasons || (n == 0 && forall i | 0 <= i < |reasons| :: reasons[i].0 != reason)
  }

  lemma {:induction false} CountIff(reasons: seq<(string, int)>, reason: string, n: int)
    requires NamedOnce(reasons)
    ensures Count(reasons, reason) == n <==> Given(reasons, reason, n)
  {
    if reasons != [] {
      var last := |reasons| - 1;
      CountIff(reasons[..last], reason, n);
      assert forall i | 0 <= i < last :: reasons[..last][i] == reasons[i];
      assert reasons == reasons[..last] + [reasons[last]];
    }
  }

  lemma {:induction false} SumConcat(a: seq<(string, int)>, b: seq<(string, int)>)
    ensures Sum(a + b) == Sum(a) + Sum(b)
  {
    if b == [] {
      assert a + b == a;
    } else {
      assert (a + b)[..|a + b| - 1] == a + b[..|b| - 1];
      SumConcat(a, b[..|b| - 1]);
    }
  }

  lemma SumOfOne(reason: string, n: int)
    ensures Sum([(reason, n)]) == n && Sum([]) == 0
  {
    assert [(reason, n)][..0] == [];
  }

  /** Both rates round to what the counts give; and the reasons, when there are any, are
      as many as the meetings, with the two software reasons as many as the failures. */
  lemma ConsistentIff(row: Row, joins: int, sessions: int)
    requires row.dispatched >= 1 && NamedOnce(row.reasons)
    requires Given(row.reasons, "JOIN_FAILURE", joins) && Given(row.reasons, "AUTH_SESSION_MISSING", sessions)
    ensures Consistent(row) <==>
      && RoundsTo(row.successRate, 1.0 - row.failures as real / row.dispatched as real)
      && RoundsTo(row.completionRate, row.completed as real / row.dispatched as real)
      && (row.hasReasons ==> Sum(row.reasons) == row.dispatched && joins + sessions == row.failures)
  {
    RateFitsIff(row.successRate, 1.0 - Share(row.failures, row.dispatched));
    RateFitsIff(row.completionRate, Share(row.completed, row.dispatched));
    CountIff(row.reasons, "JOIN_FAILURE", joins);
    CountIff(row.reasons, "AUTH_SESSION_MISSING", sessions);
  }
}
