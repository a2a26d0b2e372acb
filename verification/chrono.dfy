/**
 * The parts of chrono's date and time arithmetic the domain relies on.
 * Instants are whole seconds since the Unix epoch; calendar days are
 * counted from 1970-01-01.
 */
module Chrono {
  const SECONDS_PER_DAY: int := 86400

  /** `DateTime<FixedOffset>`: an instant (seconds since the epoch, UTC) and the offset, in seconds, it is shown in. */
  datatype DateTime = DateTime(utc: int, offset: int)

  /** `NaiveDate`, as a day number. */
  type Date = int

  /** A `DateTime<Utc>`: offset 0. */
  function Utc(seconds: int): DateTime {
    DateTime(seconds, 0)
  }

  /** `a < b` on `DateTime<FixedOffset>` compares the instants, whatever the offsets. */
  predicate Before(a: DateTime, b: DateTime) {
    a.utc < b.utc
  }

  /** `date_naive`: the calendar day of the local time (the division floors, as Dafny's does for a positive divisor). */
  function DateNaive(t: DateTime): (d: Date)
    ensures d * SECONDS_PER_DAY <= t.utc + t.offset < (d + 1) * SECONDS_PER_DAY
  {
    (t.utc + t.offset) / SECONDS_PER_DAY
  }

  /** `b - a` on `DateTime`s: a `Duration`, in seconds. */
  function Elapsed(a: DateTime, b: DateTime): int {
    b.utc - a.utc
  }

  /** `Duration::num_days`: the number of whole days, rounded toward zero. */
  function NumDays(seconds: int): (days: int)
    ensures seconds >= 0 ==> days >= 0 && days * SECONDS_PER_DAY <= seconds < (days + 1) * SECONDS_PER_DAY
    ensures seconds < 0 ==> days <= 0 && (days - 1) * SECONDS_PER_DAY < seconds <= days * SECONDS_PER_DAY
  {
    if seconds >= 0 then seconds / SECONDS_PER_DAY else -((-seconds) / SECONDS_PER_DAY)
  }
}
