/**
 * The persisted data shapes of the tracker: one check-in record per
 * check-in, and the aggregate state that holds them (types.ts).
 */
module Types {
  import opened Wrappers

  /**
   * A local calendar date, the "yyyy-MM-dd" strings of the app, written
   * as the number of days since 1970-01-01.
   */
  type DayNumber = int

  /** One check-in. `timestamp` is the creation instant in epoch milliseconds. */
  datatype CheckInRecord = CheckInRecord(
    id: string,
    timestamp: int,
    dateStr: DayNumber,
    reportMessage: string,
    mood: string)

  /**
   * The single persisted aggregate: the cached streak, the date of the
   * latest check-in (null until the first one) and the history in
   * insertion order.
   */
  datatype AppState = AppState(
    streak: int,
    lastCheckInDate: Option<DayNumber>,
    history: seq<CheckInRecord>)

  /** The dates of a history, in the same order. */
  function Dates(history: seq<CheckInRecord>): (ds: seq<DayNumber>)
    ensures |ds| == |history|
    ensures forall i :: 0 <= i < |history| ==> ds[i] == history[i].dateStr
  {
    seq(|history|, i requires 0 <= i < |history| => history[i].dateStr)
  }
}
