/**
 * `int(str(x)) == x` for every whole number `x`, the negative ones
 * included: the numbers parse_charities.py reads back from a filing are the
 * ones written there in decimal.
 */
module ParseFacts {
  import opened Wrappers
  import opened ParseCharities

  /** `str(x)` for an integer: a minus sign before the digits of a negative one. */
  function IntText(x: int): (r: string)
    ensures |r| > 0 && (x < 0 <==> r[0] == '-')
  {
    if x < 0 then ['-'] + Decimal(-x) else Decimal(x)
  }

  /** The digits of `str(n)` form a run of value `n`. */
  lemma DecimalIsRun(n: nat)
    ensures DigitRun(Decimal(n)) && DigitsValue(Decimal(n)) == n
  {
    DigitsAreRun(Decimal(n));
    DecimalValue(n);
  }

  /**
   * Renaming the value inside a parsed negative number. Kept apart from the
   * lemmas that use it: with `ParseInt` in scope the solver otherwise unfolds
   * the parser inside this one arithmetic step and the goal grows far beyond
   * what the step needs.
   */
  lemma NegatedValue(t: string, v: int, r: Option<int>)
    requires r == Some(-(DigitsValue(t) as int)) && DigitsValue(t) == v
    ensures r == Some(-v)
  {
  }

  /** `int('-' + t) == -v` for a digit run `t` of value `v`. */
  lemma NegativeDigitsParse(t: string, v: int)
    requires DigitRun(t) && DigitsValue(t) == v
    ensures ParseInt(['-'] + t) == Some(-v)
  {
    ParseNegativeInt(t);
    NegatedValue(t, v, ParseInt(['-'] + t));
  }

  /**
   * Renaming a negated natural number as the negative integer it is; kept
   * apart for the same reason as `NegatedValue`.
   */
  lemma NegatedNat(r: Option<int>, n: nat, x: int)
    requires r == Some(-(n as int)) && x + n == 0
    ensures r == Some(x)
  {
  }

  /** `int(str(x)) == x` */
  lemma IntRoundTrip(x: int)
    ensures ParseInt(IntText(x)) == Some(x)
  {
    if x < 0 {
      var n: nat := -x;
      DecimalIsRun(n);
      var text := IntText(x);
      assert text == ['-'] + Decimal(n);
      NegativeDigitsParse(Decimal(n), n);
      NegatedNat(ParseInt(text), n, x);
    } else {
      DecimalParses(x);
    }
  }
}
