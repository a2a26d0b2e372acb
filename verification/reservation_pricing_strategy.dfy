/**
 * Pricing a reservation: a fixed price per passenger per day of travel; a
 * cancelled reservation is charged a cancellation fee that falls the earlier
 * it was cancelled before departure.
 */
module ReservationPricingStrategy {
  import opened MachineInts
  import opened Chrono
  import opened MoneyValues
  import opened Flights
  import opened FlightRoutes
  import opened Itineraries
  import opened PassengerLists
  import opened ReservationAggregate
  import opened Wrappers

  /** `price_per_day_per_passenger`, in cents. */
  const PRICE_PER_DAY_PER_PASSENGER: int := 12000

  /** `1 + duration().num_days()`: the calendar span of the itinerary, counting the first day. */
  function DaysOfTravel(it: Itinerary): int
    requires |it| > 0
  {
    1 + NumDays(Duration(it))
  }

  /** The share of the price refunded when cancelling `daysBefore` days before departure. */
  function ReturnPercentage(daysBefore: int): (p: U8)
    ensures p == 0 || p == 50 || p == 75 || p == 100
    ensures p == 100 <==> daysBefore >= 15
    ensures p == 0 <==> daysBefore < 5
  {
    if daysBefore >= 15 then 100
    else if daysBefore >= 10 then 75
    else if daysBefore >= 5 then 50
    else 0
  }

  /** The earlier a reservation is cancelled, the larger (never smaller) the refund. */
  lemma ReturnPercentageMonotone(a: int, b: int)
    requires a <= b
    ensures ReturnPercentage(a) <= ReturnPercentage(b)
    ensures 10 <= b <= 14 ==> ReturnPercentage(b) == 75
    ensures 5 <= b <= 9 ==> ReturnPercentage(b) == 50
  {
  }

  /** The undiscounted price of an itinerary for a party, in cents. */
  function FullPrice(it: Itinerary, passengers: U8): int
    requires |it| > 0
  {
    PRICE_PER_DAY_PER_PASSENGER * DaysOfTravel(it) * passengers
  }

  /**
   * `price_itinerary`: the full price, or, when the reservation was cancelled
   * on day `cancelled`, the part of it that is not refunded.
   */
  function PriceItinerary(it: Itinerary, passengers: U8, cancelled: Option<Date>): (m: Money)
    requires |it| > 0
    ensures m.currency == USD
    ensures cancelled.None? ==> m == Usd(12000 * (1 + NumDays(Duration(it))) * passengers)
    ensures cancelled.Some? ==>
      m.amount == FullPrice(it, passengers) as real
                  * ((100 - ReturnPercentage(DepartureDate(it) - cancelled.value)) as real / 100.0)
    ensures Duration(it) >= 0 ==> 0.0 <= m.amount <= FullPrice(it, passengers) as real
    ensures cancelled.Some? && DepartureDate(it) - cancelled.value >= 15 ==> m.amount == 0.0
    ensures cancelled.Some? && DepartureDate(it) - cancelled.value < 5 ==> m == Usd(FullPrice(it, passengers))
  {
    var price := Mul(Mul(Usd(PRICE_PER_DAY_PER_PASSENGER), DaysOfTravel(it)), passengers as int);
    assert price == Usd(FullPrice(it, passengers));
    match cancelled
    case None => price
    case Some(date) =>
      var charged := Percentage(price, 100 - ReturnPercentage(DepartureDate(it) - date));
      ArithmeticFacts(FullPrice(it, passengers), 1, 100 - ReturnPercentage(DepartureDate(it) - date));
      charged
  }

  /**
   * `price`: a Confirmed reservation pays its current itinerary for its
   * current party; a Cancelled one is charged, on the day it was cancelled,
   * for the itinerary and party it had last (its newest revision), and
   * nothing if it has no revision.
   */
  function Price(r: Reservation): (m: Money)
    requires r.Confirmed? ==> |r.itinerary| > 0
    requires r.Cancelled? && |r.revisions| > 0 ==> |r.revisions[0].itinerary| > 0
    ensures m.currency == USD
    ensures r.Confirmed? ==> m.amount == FullPrice(r.itinerary, Count(r.passengers)) as real
    ensures r.Cancelled? && |r.revisions| == 0 ==> m == Usd(0)
    ensures r.Cancelled? && |r.revisions| > 0 ==>
      var last := r.revisions[0];
      m.amount == FullPrice(last.itinerary, Count(last.passengers)) as real
                  * ((100 - ReturnPercentage(DepartureDate(last.itinerary) - DateNaive(r.time))) as real / 100.0)
  {
    match r
    case Confirmed(_, _, _, passengers, itinerary, _) =>
      PriceItinerary(itinerary, Count(passengers), None)
    case Cancelled(_, _, _, time, revisions) =>
      if |revisions| > 0 then
        PriceItinerary(revisions[0].itinerary, Count(revisions[0].passengers), Some(DateNaive(time)))
      else Usd(0)
  }

  /** A flight leaving at 09:00 and landing at 11:00, local time at UTC+5, on the given day. */
  function MorningFlight(id: FlightId, route: FlightRoute, day: Date): Flight {
    Flight(id, route, DateTime(day * SECONDS_PER_DAY + 4 * 3600, 5 * 3600), DateTime(day * SECONDS_PER_DAY + 6 * 3600, 5 * 3600), 10)
  }

  /**
   * The priced example: out on 2024-05-08 (day 19851) and back on 2024-05-14
   * (day 19857), i.e. 7 days of travel. Two passengers pay 168000 cents, four
   * pay 336000; cancelled on 2024-03-08, 04-24, 04-30 or 05-05 (days 19790,
   * 19837, 19843, 19848) two passengers are charged 0, 42000, 84000 and
   * 168000 cents.
   */
  lemma PricingExamples(out: FlightId, back: FlightId)
    ensures var it := [Stage(Planned, MorningFlight(out, FlightRoute("EHAM", "ENLI"), 19851), None),
                       Stage(Planned, MorningFlight(back, FlightRoute("ENLI", "EHAM"), 19857), None)];
      PriceItinerary(it, 2, None) == Usd(168000)
      && PriceItinerary(it, 4, None) == Usd(336000)
      && PriceItinerary(it, 2, Some(19790)) == Usd(0)
      && PriceItinerary(it, 2, Some(19837)) == Usd(42000)
      && PriceItinerary(it, 2, Some(19843)) == Usd(84000)
      && PriceItinerary(it, 2, Some(19848)) == Usd(168000)
  {
    var it := [Stage(Planned, MorningFlight(out, FlightRoute("EHAM", "ENLI"), 19851), None),
               Stage(Planned, MorningFlight(back, FlightRoute("ENLI", "EHAM"), 19857), None)];
    assert Duration(it) == 6 * SECONDS_PER_DAY + 2 * 3600;
    assert NumDays(Duration(it)) == 6;
    assert DepartureDate(it) == 19851;
    assert FullPrice(it, 2) == 168000;
  }
}
