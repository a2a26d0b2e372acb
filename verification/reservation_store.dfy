/**
 * The reservation service's durable-object storage: journeys, airfields,
 * flight availabilities and reservations, each kept as a versioned value
 * under "<kind>:<id>". A write is accepted only when it carries the version
 * after the stored one (an absent key counts as version 0).
 *
 * The source has a Get/Set prompt and reply pair per kind; here the four
 * pairs are one pair that carries the kind, and the stored value is a union
 * over the four entity types.
 */
module ReservationStore {
  import opened Wrappers
  import opened Transactions
  import opened Repositories
  import Journeys
  import FlightAvailabilities
  import ReservationAggregate

  /** The reservation domain's `Airfield`: an id, a name and a geohash kept as its text. */
  datatype Airfield = Airfield(id: string, name: string, location: string)

  datatype Kind = JourneyKind | AirfieldKind | FlightAvailabilityKind | ReservationKind

  /** A value the storage holds. */
  datatype Entity =
    | JourneyValue(journey: Journeys.Journey)
    | AirfieldValue(airfield: Airfield)
    | FlightAvailabilityValue(availability: FlightAvailabilities.FlightAvailability)
    | ReservationValue(reservation: ReservationAggregate.Reservation)

  function KindOf(e: Entity): Kind {
    match e
    case JourneyValue(_) => JourneyKind
    case AirfieldValue(_) => AirfieldKind
    case FlightAvailabilityValue(_) => FlightAvailabilityKind
    case ReservationValue(_) => ReservationKind
  }

  /** The id a value is stored under: a flight availability is stored under its flight's id. */
  function IdOf(e: Entity): string {
    match e
    case JourneyValue(j) => j.id
    case AirfieldValue(a) => a.id
    case FlightAvailabilityValue(f) => f.flight.id
    case ReservationValue(r) => r.id
  }

  function Prefix(kind: Kind): string {
    match kind
    case JourneyKind => "journey:"
    case AirfieldKind => "airfield:"
    case FlightAvailabilityKind => "flight_availability:"
    case ReservationKind => "reservation:"
  }

  /** `[prefix, &id.to_string()].concat()`. */
  function StorageKey(kind: Kind, id: string): string {
    Prefix(kind) + id
  }

  /** Keys of different kinds never collide, and a key names one id: the prefixes start with different letters. */
  lemma StorageKeyInjective(k1: Kind, id1: string, k2: Kind, id2: string)
    ensures StorageKey(k1, id1) == StorageKey(k2, id2) <==> k1 == k2 && id1 == id2
  {
    if StorageKey(k1, id1) == StorageKey(k2, id2) {
      assert Prefix(k1)[0] == StorageKey(k1, id1)[0] == StorageKey(k2, id2)[0] == Prefix(k2)[0];
      assert k1 == k2;
      assert id1 == StorageKey(k1, id1)[|Prefix(k1)|..] == StorageKey(k2, id2)[|Prefix(k2)|..] == id2;
    }
  }

  /** `DurableObjectReservationRepositoryProtocol`, one prompt/reply pair per direction with the kind alongside. */
  datatype Protocol =
    | GetPrompt(kind: Kind, id: string)
    | GetReply(kind: Kind, getReply: Reply<Versioned<Entity>>)
    | SetPrompt(stored: Versioned<Entity>)
    | SetReply(kind: Kind, setReply: Reply<()>)

  type Storage = map<string, Versioned<Entity>>

  /** Every value sits under the key of its own kind and id. */
  predicate Keyed(storage: Storage) {
    forall key :: key in storage ==> key == StorageKey(KindOf(storage[key].value), IdOf(storage[key].value))
  }

  /** `storage.get::<Versioned<T>>(&key).await.ok()`: the stored value, if there is one and it decodes as the kind asked for. */
  function Read(storage: Storage, key: string, kind: Kind): Option<Versioned<Entity>> {
    if key in storage && KindOf(storage[key].value) == kind then Some(storage[key]) else None
  }

  /** The version a set compares against: the stored one, or 0 (`unwrap_or_default`). */
  function StoredVersion(storage: Storage, key: string, kind: Kind): Version {
    match Read(storage, key, kind)
    case Some(v) => v.version
    case None => 0
  }

  /** What `handle` answers to a prompt, and the storage it leaves. */
  function Respond(storage: Storage, prompt: Protocol): (Result<Protocol, HandleError>, Storage) {
    match prompt
    case GetPrompt(kind, id) =>
      (match Read(storage, StorageKey(kind, id), kind)
       case Some(v) => (Ok(GetReply(kind, Success(v))), storage)
       case None => (Ok(GetReply(kind, Reply.NotFound)), storage))
    case SetPrompt(v) =>
      var kind := KindOf(v.value);
      var key := StorageKey(kind, IdOf(v.value));
      if v.version == StoredVersion(storage, key, kind) + 1 then (Ok(SetReply(kind, Success(()))), storage[key := v])
      else (Ok(SetReply(kind, Reply.VersionConflict)), storage)
    case _ => (Err(BadEncoding), storage)
  }

  /**
   * A get changes nothing and finds exactly what is stored under the
   * kind's key: NotFound when the key is absent, otherwise that value,
   * which is of the kind and id asked for.
   */
  lemma RespondGet(storage: Storage, kind: Kind, id: string)
    requires Keyed(storage)
    ensures var (r, after) := Respond(storage, GetPrompt(kind, id));
      after == storage
      && (r == Ok(GetReply(kind, Reply.NotFound)) <==> StorageKey(kind, id) !in storage)
      && (StorageKey(kind, id) in storage ==>
            r == Ok(GetReply(kind, Success(storage[StorageKey(kind, id)])))
            && KindOf(storage[StorageKey(kind, id)].value) == kind
            && IdOf(storage[StorageKey(kind, id)].value) == id)
  {
    var key := StorageKey(kind, id);
    if key in storage {
      var v := storage[key].value;
      StorageKeyInjective(kind, id, KindOf(v), IdOf(v));
    }
  }

  /**
   * A set succeeds exactly when it carries the version after the stored one
   * (0 when absent); on success only its own key changes, to the new value;
   * on a conflict nothing changes; and values stay under their own keys.
   */
  lemma RespondSet(storage: Storage, v: Versioned<Entity>)
    requires Keyed(storage)
    ensures var key := StorageKey(KindOf(v.value), IdOf(v.value));
      var existing := if key in storage then storage[key].version else 0;
      var (r, after) := Respond(storage, SetPrompt(v));
      (r == Ok(SetReply(KindOf(v.value), Success(()))) <==> v.version == existing + 1)
      && (r == Ok(SetReply(KindOf(v.value), Reply.VersionConflict)) <==> v.version != existing + 1)
      && (v.version == existing + 1 ==> after == storage[key := v])
      && (v.version != existing + 1 ==> after == storage)
      && Keyed(after)
  {
    var key := StorageKey(KindOf(v.value), IdOf(v.value));
    if key in storage {
      var w := storage[key].value;
      StorageKeyInjective(KindOf(v.value), IdOf(v.value), KindOf(w), IdOf(w));
    }
  }

  /** A reply sent as a prompt is refused with `BadEncoding` and changes nothing. */
  lemma RespondRejectsReplies(storage: Storage, prompt: Protocol)
    requires prompt.GetReply? || prompt.SetReply?
    ensures Respond(storage, prompt) == (Err(BadEncoding), storage)
  {
  }

  /** The reply a get answer carries, when it is a get reply of the expected kind. */
  function GetAnswer(kind: Kind, result: Result<Protocol, HandleError>): Answer<Versioned<Entity>> {
    match result
    case Err(e) => Err(e)
    case Ok(GetReply(k, reply)) => if k == kind then Ok(Some(reply)) else Ok(None)
    case Ok(_) => Ok(None)
  }

  function SetAnswer(kind: Kind, result: Result<Protocol, HandleError>): Answer<()> {
    match result
    case Err(e) => Err(e)
    case Ok(SetReply(k, reply)) => if k == kind then Ok(Some(reply)) else Ok(None)
    case Ok(_) => Ok(None)
  }

  /**
   * Optimistic concurrency, end to end: a transaction begun on a storage,
   * given a new value of the same kind and id, commits on that storage when
   * nothing was written in between, and the value is then stored one version
   * above the one loaded. Had another write bumped the stored version in
   * between, the same commit is refused as a conflict and changes nothing.
   */
  lemma BeginThenCommit(storage: Storage, kind: Kind, id: string, value: Entity, other: Versioned<Entity>)
    requires Keyed(storage)
    requires KindOf(value) == kind && IdOf(value) == id
    requires KindOf(other.value) == kind && IdOf(other.value) == id
    ensures var (got, s1) := Respond(storage, GetPrompt(kind, id));
      var begun := BeginResult(id, GetAnswer(kind, got));
      begun.Ok?
      && var next := NextVersionedValue(WithValue(begun.value, value));
      next.Some?
      && next.value.version == (if StorageKey(kind, id) in storage then storage[StorageKey(kind, id)].version else 0) + 1
      && var (written, s2) := Respond(s1, SetPrompt(next.value));
      CommitResult(SetAnswer(kind, written)).Ok?
      && s2 == storage[StorageKey(kind, id) := next.value]
      && var (_, s3) := Respond(s1, SetPrompt(other));
      (s3 != s1 ==> var (late, s4) := Respond(s3, SetPrompt(next.value));
                    CommitResult(SetAnswer(kind, late)) == Err(Conflict) && s4 == s3)
  {
    RespondGet(storage, kind, id);
    var key := StorageKey(kind, id);
    var (got, s1) := Respond(storage, GetPrompt(kind, id));
    var begun := BeginResult(id, GetAnswer(kind, got));
    var next := NextVersionedValue(WithValue(begun.value, value));
    RespondSet(s1, next.value);
    RespondSet(s1, other);
    var (_, s3) := Respond(s1, SetPrompt(other));
    if s3 != s1 {
      RespondSet(s3, next.value);
    }
  }

  /** The durable object's storage, updated in place by `handle`. */
  class ReservationStorage {
    var storage: Storage

    predicate Valid()
      reads this
    {
      Keyed(storage)
    }

    constructor ()
      ensures storage == map[] && Valid()
    {
      storage := map[];
    }

    /** `handle`: answers one prompt, writing the storage only for an accepted set. */
    method Handle(prompt: Protocol) returns (r: Result<Protocol, HandleError>)
      requires Valid()
      modifies this
      ensures Valid()
      ensures (r, storage) == Respond(old(storage), prompt)
    {
      match prompt {
        case GetPrompt(kind, id) =>
          var key := StorageKey(kind, id);
          var value := Read(storage, key, kind);
          if value.Some? {
            r := Ok(GetReply(kind, Success(value.value)));
          } else {
            r := Ok(GetReply(kind, Reply.NotFound));
          }
        case SetPrompt(v) =>
          RespondSet(storage, v);
          var kind := KindOf(v.value);
          var key := StorageKey(kind, IdOf(v.value));
          var existing := Read(storage, key, kind);
          var existingVersion := if existing.Some? then existing.value.version else 0;
          if v.version == existingVersion + 1 {
            storage := storage[key := v];
            r := Ok(SetReply(kind, Success(())));
          } else {
            r := Ok(SetReply(kind, Reply.VersionConflict));
          }
        case _ =>
          r := Err(BadEncoding);
      }
    }

    /** The repositories' `get`: dispatches a get prompt and reports the value found. */
    method Get(kind: Kind, id: string) returns (r: Result<Option<Entity>, RepositoryError>)
      requires Valid()
      modifies this
      ensures Valid() && storage == old(storage)
      ensures r == GetResult(GetAnswer(kind, Respond(old(storage), GetPrompt(kind, id)).0))
    {
      var answer := Handle(GetPrompt(kind, id));
      r := GetResult(GetAnswer(kind, answer));
    }

    /** `set_begin`: a transaction over what is stored under the id. */
    method SetBegin(kind: Kind, id: string) returns (r: Result<Transaction<string, Entity>, RepositoryError>)
      requires Valid()
      modifies this
      ensures Valid() && storage == old(storage)
      ensures r == BeginResult(id, GetAnswer(kind, Respond(old(storage), GetPrompt(kind, id)).0))
    {
      var answer := Handle(GetPrompt(kind, id));
      r := BeginResult(id, GetAnswer(kind, answer));
    }

    /** `set_commit`: writes the transaction's value one version up; a transaction without a value is a successful no-op. */
    method SetCommit(kind: Kind, t: Transaction<string, Entity>) returns (r: Result<(), RepositoryError>)
      requires Valid()
      modifies this
      ensures Valid()
      ensures t.value.None? ==> r == Ok(()) && storage == old(storage)
      ensures t.value.Some? ==>
        var (answer, after) := Respond(old(storage), SetPrompt(Versioned(t.value.value, 1 + t.version)));
        r == CommitResult(SetAnswer(kind, answer)) && storage == after
    {
      var next := NextVersionedValue(t);
      if next.Some? {
        var answer := Handle(SetPrompt(next.value));
        r := CommitResult(SetAnswer(kind, answer));
      } else {
        r := Ok(());
      }
    }
  }
}
