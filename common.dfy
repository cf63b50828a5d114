/** Small shared vocabulary: optional values, results, database ids and the
    half-open interval test that every busy check of the booking core uses. */
module Common {

  datatype Option<+T> = None | Some(value: T)

  datatype Result<+T, +E> = Ok(value: T) | Err(error: E)

  /** Primary keys of the relational store start at 1, so a present id is
      always truthy in the original's `if some_id:` tests. */
  type Id = x: int | x >= 1 witness 1

  /** Wall-clock times are absolute minutes; day d starts at minute d * 1440
      and day 0 is a Monday, so `date.weekday()` is `day % 7`. */
  const MinutesPerDay: int := 1440

  function DayOf(t: int): int { t / MinutesPerDay }

  function MinuteOfDay(t: int): int { t % MinutesPerDay }

  function WeekdayOf(t: int): int { DayOf(t) % 7 }

  /** Two spans [s1, e1) and [s2, e2) conflict iff each starts before the other ends. */
  predicate Overlaps(s1: int, e1: int, s2: int, e2: int) {
    s1 < e2 && s2 < e1
  }
}
