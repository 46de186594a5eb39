/** Millisecond date arithmetic (src/lib/server/dates/index.ts). A JavaScript
    `Date` is represented by its `getTime()` value, an integer number of
    milliseconds since the Unix epoch. */
module Dates {

  type Instant = int

  const MillisPerSecond: int := 1000
  const SecondsPerMinute: int := 60
  const MinutesPerHour: int := 60
  const SecondsPerHour: int := SecondsPerMinute * MinutesPerHour
  const MillisPerMinute: int := MillisPerSecond * SecondsPerMinute
  const MillisPerHour: int := MillisPerMinute * MinutesPerHour

  function AddMilliseconds(date: Instant, milliseconds: int): (r: Instant)
    ensures r - date == milliseconds
  {
    date + milliseconds
  }

  function AddSeconds(date: Instant, seconds: int): (r: Instant)
    ensures r == date + 1000 * seconds
  {
    AddMilliseconds(date, seconds * MillisPerSecond)
  }

  function AddMinutes(date: Instant, minutes: int): (r: Instant)
    ensures r == date + 60_000 * minutes
  {
    AddSeconds(date, minutes * SecondsPerMinute)
  }

  function AddHours(date: Instant, hours: int): (r: Instant)
    ensures r == date + 3_600_000 * hours
  {
    AddMinutes(date, hours * MinutesPerHour)
  }

  /** Adding two offsets one after the other is adding their sum. */
  lemma AddMillisecondsAdditive(date: Instant, a: int, b: int)
    ensures AddMilliseconds(AddMilliseconds(date, a), b) == AddMilliseconds(date, a + b)
    ensures AddMilliseconds(AddMilliseconds(date, a), -a) == date
  {
  }

  /** The breakdown `getTimeUntil` returns. */
  datatype TimeUntil = TimeUntil(hours: int, minutes: int, seconds: int)

  const Zero: TimeUntil := TimeUntil(0, 0, 0)

  /** The number of whole seconds a breakdown stands for. */
  function TotalSeconds(t: TimeUntil): int {
    t.hours * SecondsPerHour + t.minutes * SecondsPerMinute + t.seconds
  }

  /** Hours are not negative, minutes and seconds lie in [0, 60). */
  predicate Normalised(t: TimeUntil) {
    && 0 <= t.hours
    && 0 <= t.minutes < MinutesPerHour
    && 0 <= t.seconds < SecondsPerMinute
  }

  /** The time from `reference` to `until`, truncated to whole seconds; zero
      once `until` is not later than `reference`. */
  function GetTimeUntil(reference: Instant, until: Instant): (t: TimeUntil)
    ensures until <= reference ==> t == Zero
    ensures reference < until ==> Normalised(t) && TotalSeconds(t) == (until - reference) / MillisPerSecond
  {
    var totalMs := until - reference;
    if totalMs <= 0 then
      Zero
    else
      var totalS := totalMs / MillisPerSecond;
      var h := totalS / SecondsPerHour;
      var m := (totalS % SecondsPerHour) / SecondsPerMinute;
      var s := totalS % SecondsPerMinute;
      TimeUntil(h, m, s)
  }

  /** Less than one second ahead reads as zero. */
  lemma SubSecondIsZero(reference: Instant, until: Instant)
    requires 0 < until - reference < MillisPerSecond
    ensures GetTimeUntil(reference, until) == Zero
  {
  }

  /** A normalised breakdown is determined by its total: the contract of
      `GetTimeUntil` leaves exactly one possible result. */
  lemma NormalisedUnique(a: TimeUntil, b: TimeUntil)
    requires Normalised(a) && Normalised(b)
    requires TotalSeconds(a) == TotalSeconds(b)
    ensures a == b
  {
  }
}
