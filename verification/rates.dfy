/** The static conversion table and the conversion of an amount into the
    target currency, rounded to cents. */
module Rates {
  import opened Common

  /** An exchange rate as the exact fraction num/den of the decimal literal
      in the table. */
  datatype Rate = Rate(num: nat, den: nat)

  predicate Positive(r: Rate) {
    r.num > 0 && r.den > 0
  }

  const One := Rate(1, 1)

  /** Rate lookup on ordered pairs of currency codes: four listed pairs,
      and 1 for every other pair. */
  function ConversionRate(from: string, to: string): (r: Rate)
    ensures Positive(r)
  {
    if (from, to) == ("INR", "USD") then Rate(12, 1000)               // 0.012
    else if (from, to) == ("USD", "INR") then Rate(83, 1)             // 83.0
    else if (from, to) == ("INR", "BTC") then Rate(3, 10000000)       // 0.0000003
    else if (from, to) == ("BTC", "INR") then Rate(3300000, 1)        // 3300000
    else One
  }

  predicate Listed(from: string, to: string) {
    (from, to) in {("INR", "USD"), ("USD", "INR"), ("INR", "BTC"), ("BTC", "INR")}
  }

  /** Each listed pair has its own entry. */
  lemma ListedRates()
    ensures ConversionRate("INR", "USD") == Rate(12, 1000)
    ensures ConversionRate("USD", "INR") == Rate(83, 1)
    ensures ConversionRate("INR", "BTC") == Rate(3, 10000000)
    ensures ConversionRate("BTC", "INR") == Rate(3300000, 1)
  {
  }

  /** Every pair not in the table, including a currency paired with itself
      and every pair that involves EUR, falls back to rate 1. */
  lemma FallbackRate(from: string, to: string)
    ensures !Listed(from, to) ==> ConversionRate(from, to) == One
    ensures from == to ==> ConversionRate(from, to) == One
    ensures from == "EUR" || to == "EUR" ==> ConversionRate(from, to) == One
  {
  }

  /** The table is keyed on ordered pairs and is not reciprocal: going from
      INR to USD and back does not multiply to 1. */
  lemma NotReciprocal()
    ensures ConversionRate("INR", "USD") != ConversionRate("USD", "INR")
    ensures var a, b := ConversionRate("INR", "USD"), ConversionRate("USD", "INR");
      a.num * b.num != a.den * b.den
  {
  }

  // ---------------------------------------------------------------------
  // Rounding to cents

  /** `r` is x/d rounded to the nearest integer, ties to even (the decimal
      default used when a product is rounded to two places). */
  predicate RoundsHalfEven(x: int, d: nat, r: int) {
    && 2 * (x - r * d) <= d
    && 2 * (r * d - x) <= d
    && (2 * (x - r * d) == d || 2 * (r * d - x) == d ==> r % 2 == 0)
  }

  function RoundHalfEven(x: int, d: nat): (r: int)
    requires d > 0
    ensures RoundsHalfEven(x, d, r)
  {
    var q, m := x / d, x % d;
    assert x == q * d + m;
    if 2 * m < d then q
    else if 2 * m > d then q + 1
    else if q % 2 == 0 then q
    else q + 1
  }

  /** Two half-even roundings of x/d that differ are adjacent: both lie
      within d/2 of x, so their multiples of d are at most d apart. */
  lemma RoundingsAdjacent(x: int, d: int, q: int, r: int)
    requires d > 0 && q < r && RoundsHalfEven(x, d, q) && RoundsHalfEven(x, d, r)
    ensures r == q + 1
  {
    var e := r - q;
    assert e * d == r * d - q * d;
    MultipleAtMostOne(e, d);
  }

  /** A positive d has no multiple above zero and at most d but itself. */
  lemma MultipleAtMostOne(e: int, d: int)
    requires d > 0 && e * d <= d
    ensures e <= 1
  {
  }

  /** Two adjacent integers are never both the half-even rounding of x/d:
      both would be ties, and they are not both even. */
  lemma AdjacentRoundings(x: int, d: int, q: int)
    requires d > 0
    ensures !(RoundsHalfEven(x, d, q) && RoundsHalfEven(x, d, q + 1))
  {
    assert (q + 1) * d == q * d + d;
  }

  /** At most one integer rounds x/d half-even. */
  lemma RoundsOnce(x: int, d: int, q: int, r: int)
    requires d > 0 && RoundsHalfEven(x, d, q) && RoundsHalfEven(x, d, r)
    ensures q == r
  {
    if q < r {
      RoundingsAdjacent(x, d, q, r);
      AdjacentRoundings(x, d, q);
    } else if r < q {
      RoundingsAdjacent(x, d, r, q);
      AdjacentRoundings(x, d, r);
    }
  }

  /** Only one integer rounds x/d half-even, so the definition above is the
      rounding and not merely one candidate. */
  lemma RoundingUnique(x: int, d: nat, r: int)
    requires d > 0 && RoundsHalfEven(x, d, r)
    ensures r == RoundHalfEven(x, d)
  {
    RoundsOnce(x, d, RoundHalfEven(x, d), r);
  }

  /** `amount` times `rate`, rounded to cents. */
  function Convert(amount: Cents, rate: Rate): Cents
    requires rate.den > 0
  {
    RoundHalfEven(amount * rate.num, rate.den)
  }

  /** The rate-1 fallback converts an amount to itself, so a pair missing
      from the table moves value one-for-one. */
  lemma ConvertAtRateOne(amount: Cents)
    ensures Convert(amount, One) == amount
  {
    RoundingUnique(amount, 1, amount);
  }

  /** A positive rate never turns a non-negative amount negative. */
  lemma ConvertNonNegative(amount: Cents, rate: Rate)
    requires Positive(rate) && amount >= 0
    ensures Convert(amount, rate) >= 0
  {
  }
}
