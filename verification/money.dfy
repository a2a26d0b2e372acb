/** The prelude's `Money`: a decimal amount in a currency (only USD exists). */
module MoneyValues {
  import opened MachineInts

  datatype Currency = USD

  /** The decimal amount is modelled exactly as a `real`. */
  datatype Money = Money(amount: real, currency: Currency)

  /** `usd`: whole cents. */
  function Usd(cents: int): Money {
    Money(cents as real, USD)
  }

  /** `mul`: the amount times a whole number, currency kept. */
  function Mul(m: Money, times: int): Money {
    Money(m.amount * times as real, m.currency)
  }

  /** `percentage`: the amount times p/100, currency kept. */
  function Percentage(m: Money, percentage: U8): Money {
    Money(m.amount * (percentage as real / 100.0), m.currency)
  }

  /**
   * Multiplying `usd(c)` gives `usd` of the product; a percentage of a
   * non-negative amount lies between zero and the amount when p is at most
   * 100, and 100 percent is the amount itself; with the examples of
   * `money.rs`: usd(100)*2 == usd(200), and 50% and 25% of usd(100).
   */
  lemma ArithmeticFacts(cents: int, times: int, p: U8)
    ensures Mul(Usd(cents), times) == Usd(cents * times)
    ensures Percentage(Usd(cents), 100) == Usd(cents)
    ensures cents >= 0 && p <= 100 ==> 0.0 <= Percentage(Usd(cents), p).amount <= cents as real
    ensures Mul(Usd(100), 2) == Usd(200)
    ensures Percentage(Usd(100), 50) == Usd(50) && Percentage(Usd(100), 25) == Usd(25)
  {
    if cents >= 0 && p <= 100 {
      PercentageWithin(Usd(cents), p);
    }
  }

  /** At most 100 percent of a non-negative amount lies between zero and the amount. */
  lemma PercentageWithin(m: Money, p: U8)
    requires m.amount >= 0.0 && p <= 100
    ensures 0.0 <= Percentage(m, p).amount <= m.amount
  {
    ScaleWithin(m.amount, p as real / 100.0);
  }

  /** A fraction between 0 and 1 of a non-negative amount lies between 0 and the amount. */
  lemma ScaleWithin(a: real, f: real)
    requires a >= 0.0 && 0.0 <= f <= 1.0
    ensures 0.0 <= a * f <= a
  {
    assert a * f <= a * 1.0;
  }
}
