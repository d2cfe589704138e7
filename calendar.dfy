/**
 * The calendar arithmetic the app borrows from JavaScript's Date and from
 * date-fns, on integers: instants are epoch milliseconds and a time zone
 * is a fixed offset from UTC in milliseconds (east of UTC is positive).
 */
module Calendar {
  import opened Types

  /** 1000 * 60 * 60 * 24, the divisor the app uses for "days". */
  const MS_PER_DAY: int := 86400000

  function Abs(x: int): (r: nat)
    ensures r == x || r == -x
  {
    if x < 0 then -x else x
  }

  /**
   * The local calendar day on which an instant falls (what
   * `format(d, 'yyyy-MM-dd')` and date-fns' `startOfDay` look at).
   */
  function LocalDay(instant: int, offsetMs: int): (day: DayNumber)
    ensures day * MS_PER_DAY <= instant + offsetMs < (day + 1) * MS_PER_DAY
  {
    (instant + offsetMs) / MS_PER_DAY
  }

  /** The instant `new Date("yyyy-MM-dd")` yields: midnight UTC of that date. */
  function UtcMidnight(day: DayNumber): (instant: int)
    ensures LocalDay(instant, 0) == day
    ensures LocalDay(instant - 1, 0) == day - 1
  {
    day * MS_PER_DAY
  }

  /** date-fns' `isSameDay`: both instants fall on the same local calendar day. */
  function IsSameDay(a: int, b: int, offsetMs: int): (same: bool)
    ensures same <==>
      LocalDay(a, offsetMs) * MS_PER_DAY <= b + offsetMs < (LocalDay(a, offsetMs) + 1) * MS_PER_DAY
  {
    LocalDay(a, offsetMs) == LocalDay(b, offsetMs)
  }

  /** Any instant inside a local day's 24 hours is mapped back to that day. */
  lemma LocalDayOfInstantInDay(day: DayNumber, instant: int, offsetMs: int)
    requires day * MS_PER_DAY <= instant + offsetMs < (day + 1) * MS_PER_DAY
    ensures LocalDay(instant, offsetMs) == day
  {
  }
}
