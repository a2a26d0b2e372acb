/**
 * The prelude's optimistic-concurrency helpers: `Versioned<T>` pairs a value
 * with the version it was stored under, and `Transaction` carries a loaded
 * value (if any) and its version until the new value is written back.
 */
module Transactions {
  import opened Wrappers

  /** `Version` is a u32 in the source; see README for the unmodelled wrap-around. */
  type Version = nat

  datatype Versioned<T> = Versioned(value: T, version: Version)

  /** `Versioned::new`: a value that was never stored before gets version 1. */
  function NewVersioned<T>(value: T): Versioned<T> {
    Versioned(value, 1)
  }

  datatype Transaction<I, V> = Transaction(id: I, value: Option<V>, version: Version)

  /** `new`: nothing loaded, version 0. */
  function New<I, V>(id: I): (t: Transaction<I, V>)
    ensures t.id == id && IsEmpty(t) && t.version == 0
  {
    Transaction(id, None, 0)
  }

  /** `from_versioned`: the stored value together with its version. */
  function FromVersioned<I, V>(id: I, versioned: Versioned<V>): (t: Transaction<I, V>)
    ensures t.id == id && t.value == Some(versioned.value) && t.version == versioned.version
  {
    Transaction(id, Some(versioned.value), versioned.version)
  }

  /** `with_value`: the new value, same id and version. */
  function WithValue<I, V>(t: Transaction<I, V>, value: V): (r: Transaction<I, V>)
    ensures r.id == t.id && r.version == t.version && r.value == Some(value)
  {
    Transaction(t.id, Some(value), t.version)
  }

  predicate IsEmpty<I, V>(t: Transaction<I, V>) {
    t.value.None?
  }

  function ExpectNonEmpty<I, V, E>(t: Transaction<I, V>, error: E): Result<Transaction<I, V>, E> {
    if t.value.Some? then Ok(t) else Err(error)
  }

  function ExpectEmpty<I, V, E>(t: Transaction<I, V>, error: E): Result<Transaction<I, V>, E> {
    if t.value.None? then Ok(t) else Err(error)
  }

  function ValueOr<I, V, E>(t: Transaction<I, V>, error: E): Result<V, E> {
    match t.value
    case Some(value) => Ok(value)
    case None => Err(error)
  }

  /** `next_versioned_value`: the value to write back, one version above the loaded one. */
  function NextVersionedValue<I, V>(t: Transaction<I, V>): Option<Versioned<V>> {
    match t.value
    case Some(value) => Some(Versioned(value, 1 + t.version))
    case None => None
  }

  /**
   * Exactly one of `expect_empty` and `expect_non_empty` succeeds; each
   * returns the transaction untouched or the given error; `value_or` succeeds
   * exactly when `expect_non_empty` does.
   */
  lemma ExpectationsPartition<I, V, E>(t: Transaction<I, V>, error: E)
    ensures ExpectEmpty(t, error).Ok? != ExpectNonEmpty(t, error).Ok?
    ensures ExpectEmpty(t, error).Ok? <==> IsEmpty(t)
    ensures ExpectEmpty(t, error) == Ok(t) || ExpectEmpty(t, error) == Err(error)
    ensures ExpectNonEmpty(t, error) == Ok(t) || ExpectNonEmpty(t, error) == Err(error)
    ensures ValueOr(t, error).Ok? <==> ExpectNonEmpty(t, error).Ok?
    ensures ValueOr(t, error).Ok? ==> t.value == Some(ValueOr(t, error).value)
    ensures ValueOr(t, error).Err? ==> ValueOr(t, error).error == error
  {
  }

  /**
   * The version written back is one more than the version loaded: a fresh
   * transaction writes version 1 (the version `Versioned::new` gives), a
   * loaded one writes the stored version plus one; an empty one writes nothing.
   */
  lemma NextVersionFollowsLoaded<I, V>(id: I, stored: Versioned<V>, value: V)
    ensures NextVersionedValue(WithValue(New<I, V>(id), value)) == Some(NewVersioned(value))
    ensures NextVersionedValue(WithValue(FromVersioned(id, stored), value)) == Some(Versioned(value, stored.version + 1))
    ensures NextVersionedValue(New<I, V>(id)).None?
  {
  }
}
