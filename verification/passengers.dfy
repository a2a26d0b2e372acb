/**
 * Who travels on a reservation: first only an arrangement (how many adults
 * and children), later the list of named passengers.
 */
module PassengerLists {
  import opened Wrappers
  import opened MachineInts
  import opened Chrono
  import SortedSets

  datatype PassengersError = NoPassengers | TooManyPassengers | NumberOfPassengersAreDifferent

  datatype Passenger = Passenger(name: string, dateOfBirth: Date)

  datatype PassengerArrangement = PassengerArrangement(adults: U8, children: U8)

  datatype Passengers = Arrangement(arrangement: PassengerArrangement) | List(list: SortedSets.SortedSet<Passenger>)

  /** `Passenger` derives `PartialEq`, so the set compares whole passengers. */
  function Whole(p: Passenger): Passenger {
    p
  }

  /** `PassengerArrangement::build`: between 1 and 255 passengers in all. */
  function BuildArrangement(adults: U8, children: U8): (r: Result<PassengerArrangement, PassengersError>)
    ensures r == Err(NoPassengers) <==> adults + children < 1
    ensures r == Err(TooManyPassengers) <==> adults + children > 255
    ensures r.Ok? ==> r.value == PassengerArrangement(adults, children)
  {
    var total := adults + children;
    if total < 1 then Err(NoPassengers)
    else if total > 255 then Err(TooManyPassengers)
    else Ok(PassengerArrangement(adults, children))
  }

  /** `PassengerArrangement::count`: the u8 sum, which wraps past 255. */
  function ArrangementCount(a: PassengerArrangement): U8 {
    AsU8(a.adults + a.children)
  }

  /** A built arrangement counts exactly its adults and children, at least one. */
  lemma BuiltArrangementCount(adults: U8, children: U8)
    requires BuildArrangement(adults, children).Ok?
    ensures ArrangementCount(BuildArrangement(adults, children).value) == adults + children >= 1
  {
  }

  /** `Passengers::count`: the arrangement's count, or the list length as a u8. */
  function Count(p: Passengers): U8 {
    match p
    case Arrangement(a) => ArrangementCount(a)
    case List(list) => AsU8(|list|)
  }

  /** The derived `PartialEq` of `Passengers`: same variant, then equal arrangements or equal sets. */
  predicate Equal(a: Passengers, b: Passengers) {
    match (a, b)
    case (Arrangement(x), Arrangement(y)) => x == y
    case (List(x), List(y)) => |x| == |y| && forall i :: 0 <= i < |x| ==> SortedSets.Contains(y, Whole, x[i])
    case _ => false
  }

  /**
   * `list` as written: an arrangement is compared with `passengers.len() as u8`,
   * so a list whose length differs from the count by a multiple of 256 is accepted.
   */
  function ListAsWritten(p: Passengers, passengers: SortedSets.SortedSet<Passenger>): Result<Passengers, PassengersError> {
    match p
    case Arrangement(a) =>
      if ArrangementCount(a) != AsU8(|passengers|) then Err(NumberOfPassengersAreDifferent) else Ok(List(passengers))
    case List(list) =>
      if |list| != |passengers| then Err(NumberOfPassengersAreDifferent) else Ok(List(passengers))
  }

  /** A list of 258 passengers replaces an arrangement of two. */
  lemma ListAsWrittenAcceptsWrongLength(passengers: SortedSets.SortedSet<Passenger>)
    requires |passengers| == 258
    ensures ListAsWritten(Arrangement(PassengerArrangement(1, 1)), passengers) == Ok(List(passengers))
    ensures Count(List(passengers)) == 2 && |passengers| != 2
  {
  }

  /** `list`, comparing the full length: the named passengers must be exactly as many as before. */
  function ListPassengers(p: Passengers, passengers: SortedSets.SortedSet<Passenger>): (r: Result<Passengers, PassengersError>)
    ensures r.Ok? <==> |passengers| == match p case Arrangement(a) => ArrangementCount(a) case List(list) => |list|
    ensures r.Ok? ==> r.value == List(passengers)
    ensures r.Err? ==> r.error == NumberOfPassengersAreDifferent
  {
    match p
    case Arrangement(a) =>
      if ArrangementCount(a) != |passengers| then Err(NumberOfPassengersAreDifferent) else Ok(List(passengers))
    case List(list) =>
      if |list| != |passengers| then Err(NumberOfPassengersAreDifferent) else Ok(List(passengers))
  }

  /** Listing passengers never changes the number counted. */
  lemma ListKeepsCount(p: Passengers, passengers: SortedSets.SortedSet<Passenger>)
    requires ListPassengers(p, passengers).Ok?
    ensures Count(ListPassengers(p, passengers).value) == Count(p)
  {
  }

  /** The passengers of the list that are adults, in order. */
  function Adults(list: seq<Passenger>, isAdult: Passenger -> bool): (r: seq<Passenger>)
    ensures |r| <= |list|
  {
    if list == [] then [] else (if isAdult(list[0]) then [list[0]] else []) + Adults(list[1..], isAdult)
  }

  /** `Adults` keeps exactly the passengers `isAdult` accepts. */
  lemma {:induction false} AdultsAreTheAdults(list: seq<Passenger>, isAdult: Passenger -> bool)
    ensures forall q :: q in Adults(list, isAdult) <==> q in list && isAdult(q)
  {
    if list != [] {
      AdultsAreTheAdults(list[1..], isAdult);
      assert forall q :: q in list <==> q == list[0] || q in list[1..];
    }
  }

  /**
   * `arrangement`: an arrangement is returned as is; a list is split into
   * adults and children, each count cast to u8. Whether a passenger is 18 or
   * older on the given date is the parameter `isAdult`.
   */
  function ArrangementOf(p: Passengers, isAdult: Passenger -> bool): PassengerArrangement {
    match p
    case Arrangement(a) => a
    case List(list) =>
      var adults := |Adults(list, isAdult)|;
      PassengerArrangement(AsU8(adults), AsU8(|list| - adults))
  }

  /**
   * The arrangement of a list adds up to its length (up to the u8 casts), and
   * the adults are the passengers `isAdult` accepts; an arrangement is its own.
   */
  lemma {:induction false} ArrangementOfCounts(p: Passengers, isAdult: Passenger -> bool)
    ensures p.Arrangement? ==> ArrangementOf(p, isAdult) == p.arrangement
    ensures p.List? && |p.list| < 256 ==>
      ArrangementOf(p, isAdult).adults + ArrangementOf(p, isAdult).children == |p.list|
      && ArrangementOf(p, isAdult).adults == |Adults(p.list, isAdult)|
    ensures ArrangementCount(ArrangementOf(p, isAdult)) == Count(p)
  {
    if p.List? {
      var adults := |Adults(p.list, isAdult)|;
      var a, c := AsU8(adults), AsU8(|p.list| - adults);
      assert (a as int + c as int) % 256 == (adults + (|p.list| - adults)) % 256;
    }
  }
}
