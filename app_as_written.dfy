/**
 * The day arithmetic of the App component as it is written (App.tsx):
 * the stored date is parsed with `new Date("yyyy-MM-dd")`, which is
 * midnight UTC, and then
 *   - the gate compares that instant's local day with today's, and
 *   - the streak uses ceil(|now - that instant| / MS_PER_DAY) as the gap.
 * Neither is the calendar-day rule of module App; the lemmas here give
 * the inputs on which they disagree with it.
 */
module AppAsWritten {
  import opened Wrappers
  import opened Types
  import opened Calendar
  import App

  /** `Math.ceil(Math.abs(now - lastDate) / MS_PER_DAY)` on integer milliseconds. */
  function DiffDays(lastCheckInDate: DayNumber, nowMs: int): (days: nat)
    ensures days == 0 <==> nowMs == UtcMidnight(lastCheckInDate)
    ensures (days - 1) * MS_PER_DAY < Abs(nowMs - UtcMidnight(lastCheckInDate)) <= days * MS_PER_DAY
  {
    (Abs(nowMs - UtcMidnight(lastCheckInDate)) + MS_PER_DAY - 1) / MS_PER_DAY
  }

  /** The streak transition of the component, driven by DiffDays. */
  function NewStreak(streak: int, lastCheckInDate: Option<DayNumber>, nowMs: int): (r: int)
    ensures lastCheckInDate.None? ==> r == 1
    ensures lastCheckInDate.Some? && DiffDays(lastCheckInDate.value, nowMs) == 1 ==> r == streak + 1
    ensures lastCheckInDate.Some? && DiffDays(lastCheckInDate.value, nowMs) > 1 ==> r == 1
    ensures lastCheckInDate.Some? && nowMs == UtcMidnight(lastCheckInDate.value) ==> r == streak
  {
    match lastCheckInDate
    case None => 1
    case Some(last) =>
      var diffDays := DiffDays(last, nowMs);
      if diffDays == 1 then streak + 1
      else if diffDays > 1 then 1
      else streak
  }

  /** The component's gate: `isSameDay(new Date(lastCheckInDate), new Date())`. */
  function HasCheckedInToday(lastCheckInDate: Option<DayNumber>, nowMs: int, offsetMs: int): (r: bool)
    ensures lastCheckInDate.None? ==> !r
    ensures lastCheckInDate.Some? ==>
      var today := LocalDay(nowMs, offsetMs);
      (r <==> today * MS_PER_DAY <= UtcMidnight(lastCheckInDate.value) + offsetMs < (today + 1) * MS_PER_DAY)
  {
    match lastCheckInDate
    case None => false
    case Some(d) => IsSameDay(UtcMidnight(d), nowMs, offsetMs)
  }

  /**
   * East of UTC, a check-in on the next local day, later in that day than
   * the zone's offset (after 08:00 at UTC+8), is seen as a two-day gap and
   * resets the streak that the calendar rule would extend.
   */
  lemma NextDayBreaksStreakEastOfUtc(streak: int, last: DayNumber, nowMs: int, offsetMs: int)
    requires 0 <= offsetMs < MS_PER_DAY
    requires LocalDay(nowMs, offsetMs) == last + 1
    requires nowMs + offsetMs - (last + 1) * MS_PER_DAY > offsetMs
    ensures DiffDays(last, nowMs) == 2
    ensures NewStreak(streak, Some(last), nowMs) == 1
    ensures App.NextStreak(streak, Some(last), LocalDay(nowMs, offsetMs)) == streak + 1
  {
    var elapsed := nowMs - UtcMidnight(last);
    assert MS_PER_DAY < elapsed < 2 * MS_PER_DAY;
  }

  /**
   * 2024-01-01 (day 19723), then 2024-01-02 at 20:00 in UTC+8: the
   * component computes a gap of 2 and resets a streak of 5 to 1.
   */
  lemma NextDayExampleUtcPlus8()
    ensures LocalDay(19724 * MS_PER_DAY + 12 * 3600000, 8 * 3600000) == 19724
    ensures DiffDays(19723, 19724 * MS_PER_DAY + 12 * 3600000) == 2
    ensures NewStreak(5, Some(19723), 19724 * MS_PER_DAY + 12 * 3600000) == 1
    ensures App.NextStreak(5, Some(19723), 19724) == 6
  {
    NextDayBreaksStreakEastOfUtc(5, 19723, 19724 * MS_PER_DAY + 12 * 3600000, 8 * 3600000);
  }

  /** At UTC or east of it the component's gate is the calendar gate. */
  lemma GateAgreesEastOfUtc(lastCheckInDate: Option<DayNumber>, nowMs: int, offsetMs: int)
    requires 0 <= offsetMs < MS_PER_DAY
    ensures HasCheckedInToday(lastCheckInDate, nowMs, offsetMs) == App.HasCheckedInToday(lastCheckInDate, nowMs, offsetMs)
  {
    if lastCheckInDate.Some? {
      var d := lastCheckInDate.value;
      LocalDayOfInstantInDay(d, UtcMidnight(d), offsetMs);
    }
  }

  /**
   * West of UTC, UTC midnight of a date is the evening before in local
   * time, so the gate never sees a check-in of today: a second attempt on
   * the same day gets through.
   */
  lemma GateMissesSameDayWestOfUtc(last: DayNumber, nowMs: int, offsetMs: int)
    requires -MS_PER_DAY < offsetMs < 0
    requires LocalDay(nowMs, offsetMs) == last
    ensures !HasCheckedInToday(Some(last), nowMs, offsetMs)
    ensures App.HasCheckedInToday(Some(last), nowMs, offsetMs)
  {
    LocalDayOfInstantInDay(last - 1, UtcMidnight(last), offsetMs);
  }

  /**
   * ... and that second same-day check-in, if made no later in the day
   * than 24 hours minus the offset (before 19:00 at UTC-5), counts as a
   * one-day gap and raises the streak.
   */
  lemma SameDayRepeatRaisesStreakWestOfUtc(streak: int, last: DayNumber, nowMs: int, offsetMs: int)
    requires -MS_PER_DAY < offsetMs < 0
    requires LocalDay(nowMs, offsetMs) == last
    requires nowMs + offsetMs - last * MS_PER_DAY <= MS_PER_DAY + offsetMs
    ensures !HasCheckedInToday(Some(last), nowMs, offsetMs)
    ensures NewStreak(streak, Some(last), nowMs) == streak + 1
  {
    GateMissesSameDayWestOfUtc(last, nowMs, offsetMs);
    var elapsed := nowMs - UtcMidnight(last);
    assert 0 < elapsed <= MS_PER_DAY;
  }

  /**
   * 2024-01-01 checked in at UTC-5, then again at 10:00 local the same
   * day: the gate lets it through and a streak of 1 becomes 2.
   */
  lemma SameDayExampleUtcMinus5()
    ensures LocalDay(19723 * MS_PER_DAY + 15 * 3600000, -5 * 3600000) == 19723
    ensures !HasCheckedInToday(Some(19723), 19723 * MS_PER_DAY + 15 * 3600000, -5 * 3600000)
    ensures NewStreak(1, Some(19723), 19723 * MS_PER_DAY + 15 * 3600000) == 2
  {
    SameDayRepeatRaisesStreakWestOfUtc(1, 19723, 19723 * MS_PER_DAY + 15 * 3600000, -5 * 3600000);
  }
}
