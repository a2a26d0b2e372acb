# Airship travel: a verified model of the reservation and scheduling core

This project models the core of an airship-travel booking system in Dafny and
proves properties of that model.

- **Reservation domain.** Journeys are round trips made of flight-route
  segments with accommodations. Itineraries are parsed against a journey.
  A reservation is confirmed, revised and cancelled under a reservation
  policy; its version counts its revisions. Flight seats are held per
  reservation. A flight-reservation strategy picks the next seat request or
  annulment. A pricing strategy computes the price and the cancellation fee.
  A monthly availability projection collects flight availabilities per route.
- **Scheduling domain.** Flights are built between two airfields with an
  airship. A dashboard projection keeps airfields, airships and flights,
  replacing entries by id.
- **Prelude.** The sorted set (insertion order, no duplicates under the
  element's equality), base62 encoding, the 128-bit uid, the optimistic
  transaction, and money.
- **Storage.** The durable-object storage handlers of both services answer
  versioned get and set prompts: a write succeeds only when it carries the
  version after the stored one. The reservation repositories turn those
  replies into `get`, `set_begin` and `set_commit` results. The two
  services' handlers have the same shape, a `Respond` function over a map
  from prefixed key to versioned value, because the source repeats one
  handler per service; their `RespondGet`, `RespondSet` and
  `RespondRejectsReplies` lemmas are therefore stated once per service.
- **API security.** A bearer token maps to claims, and claims map to a
  reservation policy.
- **Local asset server.** A small HTTP handler serves the back office's
  static files with a content type chosen by extension.

Modelling conventions:

- Ids are modelled by their display strings.
- Equality that the source defines on part of an entity is an explicit key
  function or predicate: flights, accommodations, journeys and reservations
  are compared by id, and segments by their flight route.
- `SortedSet<T>` is a `seq<T>` with a key projection.
- A date-time is a UTC instant plus an offset, in seconds; a date is a day number.
- Money amounts are exact `real`s.
- `u8` arithmetic wraps explicitly where the source can wrap.
- The current time (`Utc::now`) and the age test (`years_between(...) >= 18`)
  are parameters.
- An `Itinerary` is never empty (its only constructor refuses an empty list).
  The operations that take one therefore require `|itinerary| > 0`.

## Model

| member | source | states |
|---|---|---|
| SortedSets.Insert | prelude/src/collection/sorted_set.rs:68-87 | equals the specification `Inserted`; a new element is appended, an equal one is replaced in place and the length is kept; the specification `Inserted` tests membership with `Contains` |
| SortedSets.Replaced | prelude/src/collection/sorted_set.rs:68-87 | replacing the equal element keeps the set's length |
| SortedSets.InsertExistingReplaces | prelude/src/collection/sorted_set.rs:68-87 | in a duplicate-free set, inserting an element equal to the one at k puts it at k and leaves every other position unchanged |
| SortedSets.InsertedContains | prelude/src/collection/sorted_set.rs:34-36 | after insert the element is contained, the length grows by at most one, no duplicates appear and nothing contained is lost |
| SortedSets.FromVecDistinct | prelude/src/collection/sorted_set.rs:18-21 | `from_vec` yields a duplicate-free set, no longer than the input, containing every input element; these characterise `FromVec` |
| SortedSets.FirstMatchIsFirst | prelude/src/collection/sorted_set.rs:54-63 | `find` gives nothing iff no element matches, otherwise an element that matches with none matching before it |
| SortedSets.Find | prelude/src/collection/sorted_set.rs:54-63 | the loop returns the first match |
| SortedSets.Equals | prelude/src/collection/sorted_set.rs:90-103 | two sets are equal iff they have the same length and every element of the first is contained in the second |
| SortedSets.InsertExistingIsEqual | prelude/src/collection/sorted_set.rs:68-87 | inserting an element already contained gives a set equal to the original |
| Base62.AlphabetIsDigitChars | prelude/src/encode/base62.rs:4-12 | the 62-letter alphabet is digits, then lower-case, then upper-case letters |
| Base62.Position | prelude/src/encode/base62.rs:29-33 | a found position is below 62 and names that character |
| Base62.PositionInAlphabet | prelude/src/encode/base62.rs:29-37 | a character has a position iff it is in the alphabet, and the alphabet holds it there |
| Base62.PositionOfDigit | prelude/src/encode/base62.rs:29-33 | looking up the d-th letter gives d |
| Base62.Encode | prelude/src/encode/base62.rs:3-25 | the loop of remainders, reversed, yields the specification `Encoded` |
| Base62.EncodedShape | prelude/src/encode/base62.rs:3-25 | the encoding uses only the alphabet, is empty iff the input is 0, and has no leading '0' |
| Base62.EncodedValue | prelude/src/encode/base62.rs:3-25 | the encoding read back as a base-62 numeral is the input |
| Base62.Decoded | prelude/src/encode/base62.rs:28-42 | a decoded value always fits in 128 bits |
| Base62.Decode | prelude/src/encode/base62.rs:28-42 | the loop over the reversed input equals `Decoded` (with exact powers of 62) |
| Base62.DecodeEncode | prelude/src/encode/base62.rs:3-42 | decode(encode(n)) == Some(n) for every 128-bit n |
| Base62.DecodeRejectsForeign | prelude/src/encode/base62.rs:33-37 | one character outside the alphabet makes the whole decode None |
| Base62.AsWrittenAcceptsOverflow | prelude/src/encode/base62.rs:34-35 | "1" followed by 22 zeros is beyond 2^128: the corrected decode refuses it, the code as written returns 62^22 mod 2^128; the code as written is `DecodeAsWritten`, with the power taken modulo 2^128 |
| Uids.FromStr | prelude/src/data/uid.rs:37-43 | parsing succeeds with a non-empty id equal to the decoded value; 0 gives `ValueIsEmpty`; an undecodable string gives `MalformedInput` |
| Uids.Deserialize | prelude/src/data/uid.rs:60-71 | deserialising succeeds exactly when the string decodes, with the decoded value (the empty id included) |
| Uids.ParseDisplay | prelude/src/data/uid.rs:29-51 | parsing the display form of a non-empty id gives the id back; the display form is `ToString` and the empty id is `IsEmpty` |
| Uids.EmptyIdParsing | prelude/src/data/uid.rs:29-51 | the empty id displays as "", which parsing refuses as empty and deserialising accepts |
| Uids.DeserializeSerialize | prelude/src/data/uid.rs:53-71 | deserialising a serialised id gives it back |
| Uids.ParseForeign | prelude/src/data/uid.rs:85-97 | a string with a character outside the alphabet is `MalformedInput` |
| MoneyValues.ArithmeticFacts | prelude/src/data/money.rs:14-68 | the currency is kept; multiplying cents by n gives n times the cents; 100 percent is the amount; a percentage of at most 100 lies between 0 and the amount; usd(100) times 2 is usd(200), and 50 and 25 percent of it are usd(50) and usd(25); these are the properties of `Usd`, `Mul` and `Percentage` |
| MoneyValues.PercentageWithin | prelude/src/data/money.rs:27-30 | at most 100 percent of a non-negative amount lies between zero and the amount |
| Transactions.New | prelude/src/domain/transaction.rs:10-16 | a new transaction is empty at version 0 for its id |
| Transactions.FromVersioned | prelude/src/domain/transaction.rs:18-24 | a loaded transaction holds the stored value and its version |
| Transactions.WithValue | prelude/src/domain/transaction.rs:26-32 | setting the value keeps the id and the version |
| Transactions.ExpectationsPartition | prelude/src/domain/transaction.rs:34-61 | exactly one of expect-empty and expect-non-empty passes; each either returns the transaction or the given error; `value_or` succeeds with the value exactly when it is non-empty; these characterise `ExpectNonEmpty`, `ExpectEmpty` and `ValueOr` |
| Transactions.NextVersionFollowsLoaded | prelude/src/domain/transaction.rs:63-70 | the value to store is at version 1 after a new transaction, at the loaded version plus one after a loaded one, and absent when there is no value; this characterises `NextVersionedValue` |
| FlightRoutes.Build | domain/reservation/src/aggregate/flight_route.rs:24-32 | a route is refused iff departure and arrival are the same airfield |
| Flights.Build | domain/reservation/src/aggregate/flight.rs:23-42 | a flight is refused iff it does not depart before it arrives; flights are equal (`Same`) when their ids are |
| Segments.Build | domain/reservation/src/aggregate/segment.rs:19-45 | a segment is refused iff it has more accommodations than the maximum; segments are equal when their routes are (`Key`), and `DepartsFrom` and `ArrivesAt` are the route's two ends |
| Accommodations.Build | domain/reservation/src/aggregate/accommodation.rs:24-37 | no pictures and too many pictures are the two errors, each iff its condition |
| PassengerLists.BuildArrangement | domain/reservation/src/aggregate/passengers.rs:90-100 | no passengers and more than 255 (summed without wrap-around) are the two errors, each iff its condition |
| PassengerLists.BuiltArrangementCount | domain/reservation/src/aggregate/passengers.rs:90-104 | a built arrangement counts its adults plus children, at least one |
| PassengerLists.ListAsWrittenAcceptsWrongLength | domain/reservation/src/aggregate/passengers.rs:31-37 | as written, 258 passengers are accepted for an arrangement of 2; the code as written is `ListAsWritten` |
| PassengerLists.ListPassengers | domain/reservation/src/aggregate/passengers.rs:31-47 | a list is accepted iff its full length equals the current count, and then it becomes the passengers; otherwise `NumberOfPassengersAreDifferent` |
| PassengerLists.ListKeepsCount | domain/reservation/src/aggregate/passengers.rs:31-47 | an accepted list keeps the passenger count |
| PassengerLists.Adults | domain/reservation/src/aggregate/passengers.rs:56-58 | the adults are no more than the list |
| PassengerLists.AdultsAreTheAdults | domain/reservation/src/aggregate/passengers.rs:56-58 | a passenger is among the adults iff it is listed and passes the age test |
| PassengerLists.ArrangementOfCounts | domain/reservation/src/aggregate/passengers.rs:49-80 | an arrangement gives itself back; a list of fewer than 256 splits into its adults and the rest; the arrangement's count is the passengers' count; these characterise `ArrangementOf` and the count `Count` |
| FlightAvailabilities.FromFlight | domain/reservation/src/aggregate/flight_availability.rs:20-39 | a new availability holds no seats, so all the flight's seats are available, and its event reports them; the event is `ChangedEvent`, which reports the flight and its seats left |
| FlightAvailabilities.SeatsAvailable | domain/reservation/src/aggregate/flight_availability.rs:37-39 | the seats left plus the seats held are the flight's seats, so the `u8` subtraction never wraps on a valid availability |
| FlightAvailabilities.Without | domain/reservation/src/aggregate/flight_availability.rs:42-45 | filtering out a reservation keeps exactly the other entries |
| FlightAvailabilities.Repeat | domain/reservation/src/aggregate/flight_availability.rs:49 | n copies of the reservation id |
| FlightAvailabilities.Reserve | domain/reservation/src/aggregate/flight_availability.rs:41-69 | insufficient seats iff more are asked than remain once the reservation's own seats are released; on success the seats are the others' plus n copies of the id, and the event reports what is left |
| FlightAvailabilities.HeldWithout | domain/reservation/src/aggregate/flight_availability.rs:42-45 | after filtering, the reservation holds nothing and every other holds what it held |
| FlightAvailabilities.HeldAppend | domain/reservation/src/aggregate/flight_availability.rs:52 | what a reservation holds in a concatenation is the sum of both parts |
| FlightAvailabilities.HeldRepeat | domain/reservation/src/aggregate/flight_availability.rs:49 | n copies of an id give it n seats and no other any |
| FlightAvailabilities.WithoutAbsent | domain/reservation/src/aggregate/flight_availability.rs:42-45 | filtering out an absent id changes nothing |
| FlightAvailabilities.WithoutAppend | domain/reservation/src/aggregate/flight_availability.rs:42-45 | filtering distributes over concatenation |
| FlightAvailabilities.WithoutRepeat | domain/reservation/src/aggregate/flight_availability.rs:42-49 | filtering an id out of its own copies leaves nothing |
| FlightAvailabilities.ReserveIsAbsolute | domain/reservation/src/aggregate/flight_availability.rs:125-139 | after reserving n seats the reservation holds exactly n, whatever it held before; other reservations are untouched; reserving 0 cancels |
| FlightAvailabilities.ReserveIsIdempotent | domain/reservation/src/aggregate/flight_availability.rs:115-123 | reserving the same seats twice gives the same availability and event as once |
| FlightAvailabilities.ReserveExamples | domain/reservation/src/aggregate/flight_availability.rs:99-139 | a 10-seat flight: 255 seats are refused; 4 leave 6, again 6; changing to 6 leaves 4; changing to 0 leaves 10 |
| Itineraries.FromIter | domain/reservation/src/aggregate/itinerary.rs:12-22 | no stages iff `NoStages`; otherwise every stage is planned, in order, with the given flight and accommodation |
| Itineraries.PlannedFormProperties | domain/reservation/src/aggregate/itinerary.rs:33-39 | `planned` keeps the length, flights and accommodations, marks every stage planned, is idempotent and fixes planned itineraries; these characterise `PlannedForm` |
| Itineraries.EquivalentMeansSameStops | domain/reservation/src/aggregate/itinerary.rs:28-31 | two itineraries are equivalent iff stage by stage they have the same flight and accommodation; equivalence is reflexive, symmetric and transitive; these characterise the predicate `Equivalent` |
| Itineraries.MarkStage | domain/reservation/src/aggregate/itinerary.rs:125-167 | a marked stage keeps its flight and accommodation and takes the mark's status |
| Itineraries.MarkFlightProperties | domain/reservation/src/aggregate/itinerary.rs:78-103 | marking a flight changes only its stages, to the mark's status; the result is equivalent to the input; marking twice is marking once; these characterise `MarkFlight` |
| ReservationAggregate.RecordRevisionKeepsValid | domain/reservation/src/aggregate/reservation.rs:256-261 | the current revision followed by the history has version+1 entries numbered down to 0, each with a non-empty itinerary; `Version` is the number of revisions |
| ReservationAggregate.PlannedItineraryFacts | domain/reservation/src/aggregate/reservation.rs:97-110 | the planned form of the itinerary is planned, equivalent to it, as long, and departs on the same date; `DepartureDate` is the local day of the first departure (itinerary.rs:51-58) |
| ReservationAggregate.MarkReservationFlightProperties | domain/reservation/src/aggregate/reservation.rs:217-254 | marking keeps identity, state, passengers, version and validity; the current itinerary is marked only at the current version; older revisions have the flight annulled and newer ones are untouched; these characterise `MarkReservationFlight` |
| ReservationAggregate.MarkReservationFlightIdempotent | domain/reservation/src/aggregate/reservation.rs:205-254 | marking a flight twice is marking it once |
| Reservations.NewConfirmed | domain/reservation/src/aggregate/reservation.rs:16-40 | confirming is refused iff outside the revision period; otherwise it gives a version-0 reservation with the arrangement and itinerary, and the matching event; reservations are equal (`ReservationAggregate.Same`) when their ids are (reservation.rs:264-268) |
| Reservations.ReviseItinerary | domain/reservation/src/aggregate/reservation.rs:56-89 | refused when cancelled or when either itinerary is outside the revision period; an equivalent itinerary changes nothing; otherwise the old state is recorded as a revision, the version rises by one and an event is emitted |
| Reservations.RevisePassengers | domain/reservation/src/aggregate/reservation.rs:91-124 | refused when cancelled or outside the revision period; equal passengers change nothing; otherwise the passengers are replaced, the itinerary is reset to planned, the old state is recorded and the version rises by one |
| Reservations.Cancel | domain/reservation/src/aggregate/reservation.rs:126-155 | refused when already cancelled or outside the cancellation period; otherwise cancelled at the given time, with the last state recorded, the version up by one and an event |
| Reservations.VersionsAlongALifetime | domain/reservation/src/aggregate/reservation.rs:360-395 | confirm, revise passengers, revise itinerary and cancel give versions 0, 1, 2 and 3, each emitting an event |
| ReservationPolicies.ConfirmPolicy | domain/reservation/src/policy/reservation_policy.rs:56-65 | confirming succeeds with the callback's result iff within the revision period |
| ReservationPolicies.RevisePassengersPolicy | domain/reservation/src/policy/reservation_policy.rs:67-85 | a cancelled reservation is refused; a confirmed one gets the callback's result iff within the revision period |
| ReservationPolicies.RevisePolicy | domain/reservation/src/policy/reservation_policy.rs:87-105 | as above, with both the current and the new itinerary within the revision period |
| ReservationPolicies.CancelPolicy | domain/reservation/src/policy/reservation_policy.rs:107-139 | a cancelled reservation is refused; a confirmed one gets the callback's result iff within the cancellation period |
| ReservationPolicies.PassengerPolicyThresholds | domain/reservation/src/policy/reservation_policy.rs:31-44 | passengers may revise up to 7 days and cancel up to 1 day before departure; agents may revise until a year after; whatever a passenger may cancel, an agent may too |
| ReservationPolicies.MinimalPolicyAllowsAll | domain/reservation/src/policy/reservation_policy.rs:46-52 | the test policy allows every revision and cancellation |
| FlightReservationStrategy.FirstWhere | domain/reservation/src/services/flight_reservation_strategy.rs:32-48 | the index of the first stage whose status passes, or the length when none does |
| FlightReservationStrategy.NextReserved | domain/reservation/src/services/flight_reservation_strategy.rs:31-49 | nothing iff no stage is planned or annulled; otherwise a request for the first such flight, at the current version, for all passengers |
| FlightReservationStrategy.NextAnnulment | domain/reservation/src/services/flight_reservation_strategy.rs:51-74 | nothing iff every stage of every revision is annulled; otherwise a zero-seat request for the first unannulled stage, at that revision's version |
| FlightReservationStrategy.NextRequest | domain/reservation/src/services/flight_reservation_strategy.rs:15-29 | nothing iff the reservation is settled; seat requests for the current itinerary come before annulments of older revisions |
| FlightReservationStrategy.CountWhereZero | domain/reservation/src/services/flight_reservation_strategy.rs:31-49 | no stage left to count iff none passes |
| FlightReservationStrategy.PendingAnnulmentsZero | domain/reservation/src/services/flight_reservation_strategy.rs:51-74 | no pending annulment iff every revision is fully annulled |
| FlightReservationStrategy.SettledIffNothingPending | domain/reservation/src/services/flight_reservation_strategy.rs:15-29 | settled iff nothing is pending iff there is no next request |
| FlightReservationStrategy.MarkFlightCount | domain/reservation/src/aggregate/itinerary.rs:90-103 | marking a flight never adds pending stages and removes at least one when the flight had one |
| FlightReservationStrategy.MarkRevisionsPending | domain/reservation/src/aggregate/reservation.rs:227-235 | marking the revisions never adds pending annulments |
| FlightReservationStrategy.AnnulRevisionsPending | domain/reservation/src/aggregate/reservation.rs:227-235 | annulling a flight with a pending annulment at or below the version removes one |
| FlightReservationStrategy.NextRequestProgress | domain/reservation/src/services/flight_reservation_strategy.rs:15-74 | answering the next request with the matching mark strictly decreases what is pending, so the request loop ends |
| ReservationPricingStrategy.ReturnPercentage | domain/reservation/src/services/reservation_pricing_strategy.rs:40-45 | the refund is 0, 50, 75 or 100 percent: 100 iff 15 days or more before departure, 0 iff fewer than 5 |
| ReservationPricingStrategy.ReturnPercentageMonotone | domain/reservation/src/services/reservation_pricing_strategy.rs:40-45 | cancelling earlier never refunds less; 10 to 14 days refund 75, 5 to 9 days 50 |
| ReservationPricingStrategy.PriceItinerary | domain/reservation/src/services/reservation_pricing_strategy.rs:31-52 | 120 dollars per day of travel per passenger; a cancellation keeps the fee that is not refunded, between 0 and the full price; the full price is `FullPrice`, over `DaysOfTravel`, which is one more than the whole days of `Duration` (itinerary.rs:60-76) |
| ReservationPricingStrategy.Price | domain/reservation/src/services/reservation_pricing_strategy.rs:14-29 | a confirmed reservation costs its full price; a cancelled one the fee on its last revision at the cancellation date, or 0 without revisions |
| ReservationPricingStrategy.PricingExamples | domain/reservation/src/services/reservation_pricing_strategy.rs:63-110 | a 7-day trip costs 1680 dollars for 2 and 3360 for 4; cancelling 61, 14, 8 and 3 days before costs 0, 420, 840 and 1680 dollars |
| Journeys.SegmentsFormRoundTrip | domain/reservation/src/aggregate/journey.rs:144-157 | the loop answers whether more than one segment is given and each arrival has exactly one departing segment |
| Journeys.Build | domain/reservation/src/aggregate/journey.rs:34-64 | fewer than 2, more than 20 and not a round trip are the errors, each iff its condition; otherwise the journey and its event; journeys are equal (`Same`) when their ids are |
| Journeys.PrefixedAppend | domain/reservation/src/aggregate/journey.rs:124-142 | a route built segment by segment can be extended one segment at a time |
| Journeys.ResolveRoute | domain/reservation/src/aggregate/journey.rs:124-142 | the loop equals the specification `ResolvedRoute` |
| Journeys.RouteFromShape | domain/reservation/src/aggregate/journey.rs:124-142 | a resolved route starts at the departure, ends at the arrival, is connected, does not pass the arrival early, is no longer than the segments, and takes each step from the first segment departing there |
| Journeys.FirstStageError | domain/reservation/src/aggregate/journey.rs:84-94 | the first stage that does not follow its segment, with its error, or nothing |
| Journeys.FirstGapError | domain/reservation/src/aggregate/journey.rs:97-112 | the first gap between flights that is negative, too short for a stay or too long, with its error, or nothing |
| Journeys.CheckStages | domain/reservation/src/aggregate/journey.rs:84-94 | the loop returns the first stage that does not follow its segment, with its error, or nothing |
| Journeys.CheckGaps | domain/reservation/src/aggregate/journey.rs:97-112 | the loop returns the first wrong gap between flights, with its error, or nothing |
| Journeys.ParseItinerary | domain/reservation/src/aggregate/journey.rs:66-115 | the method equals the specification `ParsedItinerary` |
| Journeys.ParsedItineraryAccepts | domain/reservation/src/aggregate/journey.rs:66-115 | an itinerary is accepted iff stages exist, the last has no stay, they follow the resolved route and every gap is in bounds; the result is the stages, all planned |
| Journeys.RoundTripExamples | domain/reservation/src/aggregate/journey.rs:168-189 | EHAM-ENLI and back is a round trip and resolves from EHAM to EHAM; a one-way pair, one segment and none are refused |
| Journeys.FindIn | domain/reservation/src/aggregate/journey.rs:117-122 | the result is the `find` by id over `Offered`, the accommodations of the segments arriving at the location in segment order (`filter` then `flat_map`); nothing iff no such segment holds the id; otherwise the accommodation at the earliest position that does, no earlier segment and no earlier place in its own segment holding the id |
| Journeys.FindAccommodation | domain/reservation/src/aggregate/journey.rs:117-122 | the same over the journey's segments: the first accommodation with the id, in segment order, among the segments arriving at the location, and nothing iff there is none |
| AvailabilityProjection.DashIndexOfKey | domain/reservation/src/projection/availability.rs:80-82 | the first '-' of a route key ends the departure |
| AvailabilityProjection.RouteKeyInjective | domain/reservation/src/projection/availability.rs:76-82 | two routes with the same key are the same route; the key is `RouteKey`, the "DEP-ARR" string of `FlightRoute::from_aggregate` |
| AvailabilityProjection.AppliedUpserts | domain/reservation/src/projection/availability.rs:26-48 | a change event upserts the flight under its route key, by flight id; all other flights and routes are kept; other events change nothing; applying twice is applying once; the flights after an event are the function `Applied` |
| AvailabilityProjection.Availability.FromPeriod | domain/reservation/src/projection/availability.rs:15-20 | a new projection is empty for its period |
| AvailabilityProjection.Availability.Apply | domain/reservation/src/projection/availability.rs:26-48 | the flights become `Applied(old flights, event)` and the period is kept |
| SchedulingFlights.Build | domain/scheduling/src/aggregate/flight.rs:29-76 | the same airfield at both ends and a departure not before the arrival are the two errors, each iff its condition; otherwise the flight and an event with the same data and the airship's seats |
| SchedulingFlights.BuildEqualsById | domain/scheduling/src/aggregate/flight.rs:79-83 | two built flights are equal iff their ids are |
| Dashboards.Retain | domain/scheduling/src/projection/dashboard.rs:22 | `retain` keeps exactly the entries that pass |
| Dashboards.RetainAppend | domain/scheduling/src/projection/dashboard.rs:22 | retaining distributes over concatenation |
| Dashboards.RetainAll | domain/scheduling/src/projection/dashboard.rs:22 | retaining when all pass changes nothing |
| Dashboards.RetainUnique | domain/scheduling/src/projection/dashboard.rs:22 | retaining keeps ids unique |
| Dashboards.UpsertReplaces | domain/scheduling/src/projection/dashboard.rs:22-23 | after retain-then-push the entry is last and the only one with its id, others are kept, ids stay unique, and repeating it changes nothing; these characterise `Upsert` |
| Dashboards.Dashboard.constructor | domain/scheduling/src/projection/dashboard.rs:5-10 | the default dashboard is empty |
| Dashboards.Dashboard.Apply | domain/scheduling/src/projection/dashboard.rs:13-58 | each event upserts its entry into its own list, leaves the other two lists unchanged and keeps ids unique |
| Repositories.GetResult | service/reservation_api/src/runtime/repository/do_reservation.rs:183-199 | success gives the value, not found gives nothing, conflict and malformed prompt give their errors, a wrong reply an I/O error, and a failed dispatch an I/O error carrying the dispatch error's text |
| Repositories.BeginResult | service/reservation_api/src/runtime/repository/do_reservation.rs:201-217 | not found begins a new transaction, success one loaded with the stored version; every other answer is the error `get` gives |
| Repositories.CommitResult | service/reservation_api/src/runtime/repository/do_reservation.rs:219-239 | success is Ok; not found, conflict, malformed prompt and a wrong reply give their errors, and a failed dispatch an I/O error carrying the dispatch error's text |
| ReservationStore.StorageKeyInjective | service/reservation_api/src/runtime/repository/do_reservation.rs:54-178 | keys of different kinds or ids never collide |
| ReservationStore.RespondGet | service/reservation_api/src/runtime/repository/do_reservation.rs:54-66 | a get changes nothing and finds exactly the value stored under its kind and id; with RespondSet and RespondRejectsReplies this characterises the handler `Respond` for every prompt |
| ReservationStore.RespondSet | service/reservation_api/src/runtime/repository/do_reservation.rs:68-84 | a set succeeds iff it carries the stored version plus one (0 when absent) and then writes only its key; otherwise it conflicts and changes nothing |
| ReservationStore.RespondRejectsReplies | service/reservation_api/src/runtime/repository/do_reservation.rs:176 | a reply sent as a prompt is `BadEncoding` and changes nothing |
| ReservationStore.BeginThenCommit | service/reservation_api/src/runtime/repository/do_reservation.rs:201-239 | begin then commit stores the value at the next version; a write in between makes the commit a conflict that changes nothing |
| ReservationStore.ReservationStorage.constructor | service/reservation_api/src/runtime/repository/do_reservation.rs:54 | the storage starts empty |
| ReservationStore.ReservationStorage.Handle | service/reservation_api/src/runtime/repository/do_reservation.rs:54-178 | the reply and the new storage are those of `Respond` |
| ReservationStore.ReservationStorage.Get | service/reservation_api/src/runtime/repository/do_reservation.rs:183-199 | `get` is a get prompt turned into a result, and changes nothing |
| ReservationStore.ReservationStorage.SetBegin | service/reservation_api/src/runtime/repository/do_reservation.rs:201-217 | `set_begin` is a get prompt turned into a transaction, and changes nothing |
| ReservationStore.ReservationStorage.SetCommit | service/reservation_api/src/runtime/repository/do_reservation.rs:219-239 | without a value nothing is written; otherwise the value is set at the transaction's version plus one |
| SchedulingStore.StorageKeyInjective | service/scheduling_api/src/runtime/repository/do_scheduling.rs:47-141 | keys of different kinds or ids never collide |
| SchedulingStore.SetFlightAsWrittenIgnoresStoredVersion | service/scheduling_api/src/runtime/repository/do_scheduling.rs:121-137 | as written, a flight write succeeds iff it carries version 1: over a stored version-1 flight a version-2 write conflicts and a version-1 write overwrites |
| SchedulingStore.RespondGet | service/scheduling_api/src/runtime/repository/do_scheduling.rs:49-60 | a get changes nothing and finds exactly the value stored under its kind and id |
| SchedulingStore.RespondSet | service/scheduling_api/src/runtime/repository/do_scheduling.rs:61-137 | every write, flights included, succeeds iff it carries the stored version plus one, and then writes only its key; otherwise nothing changes; with RespondGet and RespondRejectsReplies this characterises the corrected handler `Respond`; `RespondAsWritten` is the handler as written, which reads a stored flight as an id |
| SchedulingStore.AsWrittenDiffersOnlyForFlights | service/scheduling_api/src/runtime/repository/do_scheduling.rs:47-141 | only the flight write differs between the code as written and the corrected handler |
| SchedulingStore.RespondRejectsReplies | service/scheduling_api/src/runtime/repository/do_scheduling.rs:139 | a reply sent as a prompt is `BadEncoding` and changes nothing |
| SchedulingStore.SchedulingStorage.constructor | service/scheduling_api/src/runtime/repository/do_scheduling.rs:47 | the storage starts empty |
| SchedulingStore.SchedulingStorage.Handle | service/scheduling_api/src/runtime/repository/do_scheduling.rs:47-141 | the reply and the new storage are those of the corrected `Respond` |
| Security.Contains | service/reservation_api/src/api/security/mod.rs:14 | true iff the pattern occurs at some position |
| Security.BearerClaims | service/reservation_api/src/api/security/mod.rs:12-21 | the claims hold the agent scope iff the token contains "agent", and nothing else |
| Security.ParseBearerToken | service/reservation_api/src/api/security/mod.rs:12-21 | the pushed scopes are those claims |
| Security.ReservationPolicyFromClaims | service/reservation_api/src/api/security/mod.rs:23-34 | the agent policy iff the claims hold the agent scope; the passenger policy otherwise, and without claims |
| Security.TokenPolicy | service/reservation_api/src/api/security/mod.rs:12-34 | a token gets the agent policy iff it contains "agent" |
| AssetServer.GetContentType | local/server.js:24-31 | the type of the first table extension that ends the path, or "application/octet-stream" when none does |
| AssetServer.FirstMatchFrom | local/server.js:25-29 | the first matching table index from a position, with none matching before it |
| AssetServer.ContentTypeOf | local/server.js:24-31 | the default type iff no extension matches |
| AssetServer.SuffixOfSuffix | local/server.js:26 | of two suffixes of a path, the shorter ends the longer |
| AssetServer.ExtensionsUnrelated | local/server.js:16-22 | no extension of the table ends another |
| AssetServer.ContentTypeByExtension | local/server.js:16-31 | a path ending with a table extension gets that extension's type, whatever its place in the table |
| AssetServer.ContentTypeDefault | local/server.js:24-31 | a path with no table extension gets the default type |
| AssetServer.ServedPath | local/server.js:34-41 | one leading "/backoffice" is stripped, and the application's routes become "/index.html" |
| AssetServer.ServedPathExamples | local/server.js:9-41 | the routes with or without the prefix serve the index; assets are served with or without the prefix; the prefix is stripped only once |
| AssetServer.Handler | local/server.js:33-52 | an existing file is sent with status 200, its content and its path's type; a missing one is a plain-text 404 "not found" |

## Left out

- Durable-object dispatch, JSON (de)serialisation, worker storage I/O and
  the Miniflare environment are not modelled. A dispatch is a direct call of
  the storage handler.
- The storage write's own failure (the `?` on `storage.put`) is not modelled.
- Repositories.DispatchMessage: the text of a failed dispatch is the worker
  library's display of its error; the model fixes it as one message distinct
  from the repositories' own two, since the worker library is not part of
  this model.
- The four prompt/reply pairs of each storage protocol are one pair each way,
  carrying the entity's kind.
- The use cases, the HTTP APIs and their transfer objects are not modelled;
  they only compose the aggregates and repositories modelled here.
- The value-object parsers (names, e-mail addresses, ICAO codes, phone
  numbers, pictures, places) are not modelled: ids and names are strings.
- The contact e-mail challenge and phone number of a reservation, and the
  geohash, are not modelled.
- `years_between` (floating point and calendar arithmetic) is the parameter
  `isAdult`. `Utc::now` is the parameter `now` or `today`.
- `Uid::new_random` is left out (randomness).
- Versions are `nat`s: the `u32` conversion of a reservation's revision
  count and the `1 + version` of a transaction do not wrap in the model,
  which would take 2^32 revisions of one value.
- AssetServer.Handler: the URL is taken after `decodeURIComponent`, whose
  error for a malformed escape is not modelled. The file system is a map
  from path to content, and any failed read is a missing key.
- The R2 projection stores and the journeys projection
  (`projection/journeys.rs`) are not modelled. `local/environment.js` is
  not part of this model.

## Findings

| source | as written | input that shows it | evidently intended | confidence | as-written member | corrected member |
|---|---|---|---|---|---|---|
| prelude/src/encode/base62.rs:34 | `62_u128.pow(index)` is unchecked, so for an input of 23 or more characters the power itself overflows: in a release build it wraps and the digit is multiplied by a wrapped power | "1" followed by 22 '0's (62^22 > 2^128) decodes to Some(62^22 mod 2^128) | None: every value that does not fit in 128 bits is refused, as `checked_mul` and `checked_add` intend | not executed; a debug build panics instead of wrapping | Base62.AsWrittenAcceptsOverflow | Base62.Decode |
| domain/reservation/src/aggregate/passengers.rs:34 | the list's length is compared after `as u8`, which truncates | an arrangement of 1 adult and 1 child and a list of 258 passengers (258 as u8 == 2) is accepted | the full length is compared, so the list is refused | not executed | PassengerLists.ListAsWrittenAcceptsWrongLength | PassengerLists.ListPassengers |
| service/scheduling_api/src/runtime/repository/do_scheduling.rs:124 | the stored flight is read back as `Versioned<FlightId>`; a stored flight never decodes as an id, so the existing version is always 0 | a flight stored at version 1: its version-2 update is a conflict and a second version-1 write overwrites it | the stored value is read as `Versioned<Flight>`, as every other write does | not executed | SchedulingStore.SetFlightAsWrittenIgnoresStoredVersion | SchedulingStore.RespondSet |
