/**
 * The data behind the "last 7 days" bar chart (components/StatsChart.tsx):
 * one entry per day of the week ending today, oldest first, with value 1
 * when some check-in is dated that day and 0 otherwise.
 */
module StatsChart {
  import opened Types

  /** One bar: the day it stands for and whether that day has a check-in. */
  datatype DayEntry = DayEntry(fullDate: DayNumber, value: int)

  /** `history.some(h => h.dateStr === day)`. */
  function HasCheckInOn(history: seq<CheckInRecord>, day: DayNumber): (present: bool)
    ensures present <==> exists i :: 0 <= i < |history| && history[i].dateStr == day
  {
    exists r :: r in history && r.dateStr == day
  }

  /** The chart data for the local day `today`. */
  function Last7Days(history: seq<CheckInRecord>, today: DayNumber): (data: seq<DayEntry>)
    ensures |data| == 7
    ensures forall i :: 0 <= i < |data| ==> data[i].fullDate == today - (6 - i)
    ensures forall i :: 0 <= i < |data| ==>
      (data[i].value == 1 <==> HasCheckInOn(history, data[i].fullDate))
    ensures forall i :: 0 <= i < |data| ==> data[i].value == 0 || data[i].value == 1
  {
    seq(7, i requires 0 <= i < 7 =>
      var day := today - (6 - i);
      DayEntry(day, if HasCheckInOn(history, day) then 1 else 0))
  }

  /** The bars are consecutive days and the last one is today. */
  lemma WindowEndsToday(history: seq<CheckInRecord>, today: DayNumber)
    ensures Last7Days(history, today)[6].fullDate == today
    ensures forall i :: 0 <= i < 6 ==>
      Last7Days(history, today)[i + 1].fullDate == Last7Days(history, today)[i].fullDate + 1
  {
  }

  /** With no history every bar is empty. */
  lemma EmptyHistoryAllZero(today: DayNumber)
    ensures forall i :: 0 <= i < 7 ==> Last7Days([], today)[i].value == 0
  {
  }

  /** Records dated outside the window change no bar. */
  lemma OutsideWindowIgnored(history: seq<CheckInRecord>, others: seq<CheckInRecord>, today: DayNumber)
    requires forall r :: r in others ==> r.dateStr < today - 6 || today < r.dateStr
    ensures Last7Days(history + others, today) == Last7Days(history, today)
  {
    var a, b := Last7Days(history + others, today), Last7Days(history, today);
    forall i | 0 <= i < 7
      ensures a[i] == b[i]
    {
      if HasCheckInOn(history + others, a[i].fullDate) {
        var r :| r in history + others && r.dateStr == a[i].fullDate;
        assert r in history;
      }
    }
  }

  /** A bar is a presence flag: another record on a day already present changes nothing. */
  lemma PresenceNotCount(history: seq<CheckInRecord>, rec: CheckInRecord, today: DayNumber)
    requires exists r :: r in history && r.dateStr == rec.dateStr
    ensures Last7Days(history + [rec], today) == Last7Days(history, today)
  {
    var a, b := Last7Days(history + [rec], today), Last7Days(history, today);
    forall i | 0 <= i < 7
      ensures a[i] == b[i]
    {
      if HasCheckInOn(history + [rec], a[i].fullDate) {
        var r :| r in history + [rec] && r.dateStr == a[i].fullDate;
        var r' :| r' in history && r'.dateStr == rec.dateStr;
        assert r in history || r == rec;
      }
    }
  }
}
