/**
 * Fare computation of the dispatch backend (backend/server.js:29-31, 204-206).
 *
 * The source computes in binary floating point and rounds with
 * `toFixed(2)`; here the arithmetic is exact over `real` and the rounding is
 * the idealised decimal rounding `toFixed` aims at: to the nearest cent, a tie
 * going away from zero.
 */
module Pricing {

  /** PRECO_BASE, PRECO_POR_KM and PRECO_POR_MIN, in reais. */
  const BaseFare: real := 4.00
  const PerKm: real := 1.60
  const PerMinute: real := 0.30

  /** A whole number of cents. */
  predicate IsCents(x: real) {
    (x * 100.0).Floor as real == x * 100.0
  }

  /**
   * `parseFloat(x.toFixed(2))`: the multiple of 0.01 nearest to `x`; on a tie
   * it is the one farther from zero. The two interval clauses pin the result
   * down uniquely (RoundCentsUnique).
   */
  function RoundCents(x: real): (r: real)
    ensures IsCents(r)
    ensures x >= 0.0 ==> -0.005 < r - x <= 0.005
    ensures x < 0.0 ==> -0.005 <= r - x < 0.005
  {
    if x >= 0.0 then
      var n := (x * 100.0 + 0.5).Floor;
      CentsAreCents(n);
      n as real / 100.0
    else
      var n := (-x * 100.0 + 0.5).Floor;
      CentsAreCents(-n);
      -n as real / 100.0
  }

  /** A whole number of hundredths is a whole number of cents. */
  lemma CentsAreCents(n: int)
    ensures IsCents(n as real / 100.0)
  {
  }

  /** Any whole number of cents within the rounding interval of `x` is RoundCents(x). */
  lemma RoundCentsUnique(x: real, c: real)
    requires IsCents(c)
    requires x >= 0.0 ==> -0.005 < c - x <= 0.005
    requires x < 0.0 ==> -0.005 <= c - x < 0.005
    ensures c == RoundCents(x)
  {
    var r := RoundCents(x);
    var n, m := (c * 100.0).Floor, (r * 100.0).Floor;
    assert n as real == c * 100.0 && m as real == r * 100.0;
    assert -1.0 < (n - m) as real < 1.0;
  }

  /** A value that is already a whole number of cents is left alone. */
  lemma RoundCentsKeepsCents(x: real)
    requires IsCents(x)
    ensures RoundCents(x) == x
  {
    RoundCentsUnique(x, x);
  }

  /** Rounding to cents never reverses the order of two amounts. */
  lemma RoundCentsMonotone(x: real, y: real)
    requires x <= y
    ensures RoundCents(x) <= RoundCents(y)
  {
    if 0.0 <= x {
      assert (x * 100.0 + 0.5).Floor <= (y * 100.0 + 0.5).Floor;
    } else if y < 0.0 {
      assert (-y * 100.0 + 0.5).Floor <= (-x * 100.0 + 0.5).Floor;
    }
  }

  /** The price formula before rounding. */
  function RawFare(km: real, minutes: real): real {
    BaseFare + km * PerKm + minutes * PerMinute
  }

  /**
   * The fare of a trip of `km` kilometres and `minutes` minutes, in whole
   * cents; with RoundCentsUnique these clauses fix its value.
   */
  function Fare(km: real, minutes: real): (r: real)
    ensures IsCents(r)
    ensures RawFare(km, minutes) >= 0.0 ==> -0.005 < r - RawFare(km, minutes) <= 0.005
    ensures RawFare(km, minutes) < 0.0 ==> -0.005 <= r - RawFare(km, minutes) < 0.005
  {
    RoundCents(RawFare(km, minutes))
  }

  /** For a route of non-negative length and duration the fare is at least the base fare. */
  lemma FareAtLeastBase(km: real, minutes: real)
    requires km >= 0.0 && minutes >= 0.0
    ensures Fare(km, minutes) >= BaseFare
  {
    RoundCentsMonotone(BaseFare, RawFare(km, minutes));
    RoundCentsKeepsCents(BaseFare);
  }

  /** A longer or slower trip never costs less. */
  lemma FareMonotone(km: real, minutes: real, km': real, minutes': real)
    requires km <= km' && minutes <= minutes'
    ensures Fare(km, minutes) <= Fare(km', minutes')
  {
    RoundCentsMonotone(RawFare(km, minutes), RawFare(km', minutes'));
  }

  /** Two kilometres in six minutes: 4.00 + 3.20 + 1.80 = 9.00. */
  lemma FareTwoKmSixMinutes()
    ensures Fare(2.0, 6.0) == 9.00
  {
    assert RawFare(2.0, 6.0) == 9.0;
    RoundCentsKeepsCents(9.0);
  }
}
