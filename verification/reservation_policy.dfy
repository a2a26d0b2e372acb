/**
 * The reservation policy: how many days before the first departure a
 * reservation may still be confirmed or revised, and cancelled. Today's
 * date, which the source reads from the clock, is the parameter `today`.
 */
module ReservationPolicies {
  import opened Wrappers
  import opened Chrono
  import opened Itineraries
  import opened PassengerLists
  import opened ReservationAggregate

  datatype ReservationPolicyError =
    | NotAllowedToConfirmReservationShortlyBeforeDeparture
    | ReservationIsAlreadyCancelled
    | NotAllowedToReviseReservationAnymore
    | NotAllowedToCancelReservationAnymore
    | MalformedItinerary

  /** Both thresholds are i64 day counts. */
  datatype ReservationPolicy = ReservationPolicy(reviseDaysBeforeDeparture: int, cancelDaysBeforeDeparture: int)

  /** `i64::MIN`, the threshold of the policy the tests use. */
  const DAYS_MIN: int := -0x8000_0000_0000_0000

  /** A passenger may revise up to 7 days and cancel up to 1 day before departure. */
  function PassengerPolicy(): ReservationPolicy {
    ReservationPolicy(7, 1)
  }

  /** An agent may revise and cancel up to a year after departure. */
  function AgentPolicy(): ReservationPolicy {
    ReservationPolicy(-365, -365)
  }

  /** Whole days from `today` to the itinerary's departure date. */
  function DaysBeforeDeparture(itinerary: Itinerary, today: Date): int
    requires |itinerary| > 0
  {
    DepartureDate(itinerary) - today
  }

  predicate WithinRevisionPeriod(policy: ReservationPolicy, itinerary: Itinerary, today: Date)
    requires |itinerary| > 0
  {
    DaysBeforeDeparture(itinerary, today) >= policy.reviseDaysBeforeDeparture
  }

  predicate WithinCancellationPeriod(policy: ReservationPolicy, itinerary: Itinerary, today: Date)
    requires |itinerary| > 0
  {
    DaysBeforeDeparture(itinerary, today) >= policy.cancelDaysBeforeDeparture
  }

  /** `new_confirmed`: the callback runs on the reservation iff its itinerary is within the revision period. */
  function ConfirmPolicy<R>(policy: ReservationPolicy, reservation: Reservation, today: Date, f: Reservation -> R)
    : (result: Result<R, ReservationPolicyError>)
    requires reservation.Confirmed? && |reservation.itinerary| > 0
    ensures result.Ok? <==> WithinRevisionPeriod(policy, reservation.itinerary, today)
    ensures result.Ok? ==> result.value == f(reservation)
    ensures result.Err? ==> result.error == NotAllowedToConfirmReservationShortlyBeforeDeparture
  {
    if WithinRevisionPeriod(policy, reservation.itinerary, today) then Ok(f(reservation))
    else Err(NotAllowedToConfirmReservationShortlyBeforeDeparture)
  }

  /** `revise_passengers`: only a Confirmed reservation within the revision period reaches the callback, unchanged. */
  function RevisePassengersPolicy<R>(policy: ReservationPolicy, reservation: Reservation, passengers: Passengers, today: Date,
                                     f: (Reservation, Passengers) -> R)
    : (result: Result<R, ReservationPolicyError>)
    requires reservation.Confirmed? ==> |reservation.itinerary| > 0
    ensures reservation.Cancelled? ==> result == Err(ReservationIsAlreadyCancelled)
    ensures reservation.Confirmed? ==>
      result == if WithinRevisionPeriod(policy, reservation.itinerary, today) then Ok(f(reservation, passengers))
                else Err(NotAllowedToReviseReservationAnymore)
  {
    match reservation
    case Confirmed(_, _, _, _, itinerary, _) =>
      if WithinRevisionPeriod(policy, itinerary, today) then Ok(f(reservation, passengers))
      else Err(NotAllowedToReviseReservationAnymore)
    case Cancelled(_, _, _, _, _) => Err(ReservationIsAlreadyCancelled)
  }

  /** `revise_itinerary`: both the current and the new itinerary must be within the revision period. */
  function RevisePolicy<R>(policy: ReservationPolicy, reservation: Reservation, itinerary: Itinerary, today: Date,
                           f: (Reservation, Itinerary) -> R)
    : (result: Result<R, ReservationPolicyError>)
    requires reservation.Confirmed? ==> |reservation.itinerary| > 0
    requires |itinerary| > 0
    ensures reservation.Cancelled? ==> result == Err(ReservationIsAlreadyCancelled)
    ensures reservation.Confirmed? ==>
      result == if WithinRevisionPeriod(policy, reservation.itinerary, today) && WithinRevisionPeriod(policy, itinerary, today)
                then Ok(f(reservation, itinerary))
                else Err(NotAllowedToReviseReservationAnymore)
  {
    match reservation
    case Confirmed(_, _, _, _, current, _) =>
      if WithinRevisionPeriod(policy, current, today) && WithinRevisionPeriod(policy, itinerary, today)
      then Ok(f(reservation, itinerary))
      else Err(NotAllowedToReviseReservationAnymore)
    case Cancelled(_, _, _, _, _) => Err(ReservationIsAlreadyCancelled)
  }

  /** `cancel`: a Confirmed reservation within the cancellation period reaches the callback, unchanged. */
  function CancelPolicy<R>(policy: ReservationPolicy, reservation: Reservation, today: Date, f: Reservation -> R)
    : (result: Result<R, ReservationPolicyError>)
    requires reservation.Confirmed? ==> |reservation.itinerary| > 0
    ensures reservation.Cancelled? ==> result == Err(ReservationIsAlreadyCancelled)
    ensures reservation.Confirmed? ==>
      result == if WithinCancellationPeriod(policy, reservation.itinerary, today) then Ok(f(reservation))
                else Err(NotAllowedToCancelReservationAnymore)
  {
    match reservation
    case Confirmed(_, _, _, _, itinerary, _) =>
      if WithinCancellationPeriod(policy, itinerary, today) then Ok(f(reservation))
      else Err(NotAllowedToCancelReservationAnymore)
    case Cancelled(_, _, _, _, _) => Err(ReservationIsAlreadyCancelled)
  }

  /**
   * The passenger policy confirms and revises an itinerary leaving 7 days
   * from today but not one leaving in 6, and cancels one leaving tomorrow
   * but not one leaving today; the agent policy allows both up to 365 days
   * after departure.
   */
  lemma PassengerPolicyThresholds(itinerary: Itinerary, today: Date)
    requires |itinerary| > 0
    ensures DaysBeforeDeparture(itinerary, today) == 7 ==> WithinRevisionPeriod(PassengerPolicy(), itinerary, today)
    ensures DaysBeforeDeparture(itinerary, today) == 6 ==> !WithinRevisionPeriod(PassengerPolicy(), itinerary, today)
    ensures DaysBeforeDeparture(itinerary, today) == 1 ==> WithinCancellationPeriod(PassengerPolicy(), itinerary, today)
    ensures DaysBeforeDeparture(itinerary, today) == 0 ==> !WithinCancellationPeriod(PassengerPolicy(), itinerary, today)
    ensures WithinRevisionPeriod(AgentPolicy(), itinerary, today) <==> DaysBeforeDeparture(itinerary, today) >= -365
    ensures WithinCancellationPeriod(PassengerPolicy(), itinerary, today) ==> WithinCancellationPeriod(AgentPolicy(), itinerary, today)
  {
  }

  /** The test policy (thresholds `i64::MIN`) allows every itinerary whose day count fits an i64. */
  lemma MinimalPolicyAllowsAll(itinerary: Itinerary, today: Date)
    requires |itinerary| > 0 && DaysBeforeDeparture(itinerary, today) >= DAYS_MIN
    ensures WithinRevisionPeriod(ReservationPolicy(DAYS_MIN, DAYS_MIN), itinerary, today)
    ensures WithinCancellationPeriod(ReservationPolicy(DAYS_MIN, DAYS_MIN), itinerary, today)
  {
  }
}
