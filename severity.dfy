/** The severity rule of the complaint form: a sentiment compound score is
    turned into an urgency bucket by taking its magnitude, scaling it by 2.5,
    truncating towards zero, adding 3 and clamping into 1..5. */
module SeverityScorer {

  function Abs(x: real): (r: real)
    ensures r >= 0.0 && (r == x || r == -x)
  {
    if x < 0.0 then -x else x
  }

  /** Python's int() on a float: truncation towards zero (not Dafny's Floor,
      which rounds towards negative infinity). */
  function Trunc(x: real): (r: int)
    ensures x >= 0.0 ==> r as real <= x < r as real + 1.0
    ensures x < 0.0 ==> r as real - 1.0 < x <= r as real
  {
    if x >= 0.0 then x.Floor else -((-x).Floor)
  }

  function Min(a: int, b: int): (m: int) { if a <= b then a else b }

  function Max(a: int, b: int): (m: int) { if a >= b then a else b }

  /** max(1, min(5, int(abs(score * 2.5) + 3))). The argument of int() is
      never negative, so the lower clamp never fires: every severity is 3, 4 or 5. */
  function Severity(score: real): (s: int)
    ensures 1 <= s <= 5
    ensures 3 <= s
  {
    Max(1, Min(5, Trunc(Abs(score * 2.5) + 3.0)))
  }

  /** For a non-negative argument, the truncation of int() is the floor. */
  lemma TruncIsFloorWhenNonNegative(x: real)
    requires x >= 0.0
    ensures Trunc(x) == x.Floor
  {
  }

  /** Severity looks only at the magnitude of the score: an equally strong
      positive or negative tone gives the same bucket. */
  lemma SeverityIsEven(score: real)
    ensures Severity(score) == Severity(-score)
  {
  }

  /** A stronger tone never yields a lower severity. */
  lemma SeverityMonotone(a: real, b: real)
    requires Abs(a) <= Abs(b)
    ensures Severity(a) <= Severity(b)
  {
  }

  /** Independent description of the rule as three bands of |score|:
      below 0.4 gives 3, from 0.4 below 0.8 gives 4, from 0.8 on gives 5. */
  lemma SeverityBands(score: real)
    ensures Abs(score) < 0.4 ==> Severity(score) == 3
    ensures 0.4 <= Abs(score) < 0.8 ==> Severity(score) == 4
    ensures 0.8 <= Abs(score) ==> Severity(score) == 5
  {
  }

  /** On the range of a compound score, [-1, 1], the clamp is inactive and the
      rule is floor(|score| * 2.5) + 3. */
  lemma SeverityOnScoreRange(score: real)
    requires -1.0 <= score <= 1.0
    ensures Severity(score) == (Abs(score) * 2.5).Floor + 3
  {
  }

  /** Worked values: neutral text gives the midpoint, the extremes give 5, and
      0.3 gives 3 because the rule truncates where rounding would give 4. */
  lemma SeverityExamples()
    ensures Severity(0.0) == 3
    ensures Severity(1.0) == 5 && Severity(-1.0) == 5
    ensures Severity(-0.8) == 5
    ensures Severity(0.05) == 3
    ensures Severity(0.3) == 3
    ensures Severity(0.4) == 4
  {
  }
}
