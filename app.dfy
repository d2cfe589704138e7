/**
 * The check-in engine of the App component (App.tsx): the initial state,
 * the load-time merge of the stored blob, the "already checked in today"
 * gate, the streak transition and the append of a record, and the choice
 * of the message to share.
 *
 * Dates follow the calendar: the gate compares local day numbers and the
 * streak looks at the difference in local days. The millisecond formula
 * the component actually uses is modelled, beside this one, in module
 * AppAsWritten.
 */
module App {
  import opened Wrappers
  import opened Types
  import opened Calendar

  /** The state of a first launch. */
  const INITIAL_STATE: AppState := AppState(0, None, [])

  /** The mood every check-in record is stored with. */
  const CHECK_IN_MOOD: string := "happy"

  /** What is shared when there is neither a current nor a stored message. */
  const DEFAULT_SHARE_MESSAGE: string := "妈，我今天去约会了！"

  // ---------------------------------------------------------------------
  // Persistence: the stored blob and the shallow merge on load
  // ---------------------------------------------------------------------

  /**
   * The stored blob once parsed: any of the three fields may be missing.
   * A `lastCheckInDate` stored as null is `Some(None)`.
   */
  datatype StoredState = StoredState(
    streak: Option<int>,
    lastCheckInDate: Option<Option<DayNumber>>,
    history: Option<seq<CheckInRecord>>)

  /** What saving writes: every field of the state, present. */
  function Serialize(s: AppState): (blob: StoredState)
    ensures blob.streak == Some(s.streak)
    ensures blob.lastCheckInDate == Some(s.lastCheckInDate)
    ensures blob.history == Some(s.history)
  {
    StoredState(Some(s.streak), Some(s.lastCheckInDate), Some(s.history))
  }

  /**
   * `{ ...prev, ...parsed }`: a field present in the blob replaces the
   * field of the previous state, an absent one keeps it.
   */
  function Merge(prev: AppState, parsed: StoredState): (r: AppState)
    ensures parsed.streak.Some? ==> r.streak == parsed.streak.value
    ensures parsed.streak.None? ==> r.streak == prev.streak
    ensures parsed.lastCheckInDate.Some? ==> r.lastCheckInDate == parsed.lastCheckInDate.value
    ensures parsed.lastCheckInDate.None? ==> r.lastCheckInDate == prev.lastCheckInDate
    ensures parsed.history.Some? ==> r.history == parsed.history.value
    ensures parsed.history.None? ==> r.history == prev.history
  {
    AppState(
      parsed.streak.GetOr(prev.streak),
      parsed.lastCheckInDate.GetOr(prev.lastCheckInDate),
      parsed.history.GetOr(prev.history))
  }

  /** Loading what was saved gives back the saved state, whatever it merges over. */
  lemma LoadAfterSave(prev: AppState, s: AppState)
    ensures Merge(prev, Serialize(s)) == s
  {
  }

  /** A blob with none of the fields leaves the state as it was. */
  lemma LoadOfEmptyObject(prev: AppState)
    ensures Merge(prev, StoredState(None, None, None)) == prev
  {
  }

  /** Merging the same blob twice is merging it once. */
  lemma MergeIdempotent(prev: AppState, parsed: StoredState)
    ensures Merge(Merge(prev, parsed), parsed) == Merge(prev, parsed)
  {
  }

  /**
   * The message shown again after loading: the latest stored record's,
   * when the blob has a non-empty history whose last record was created
   * on the current local day.
   */
  function MessageToRestore(parsed: StoredState, nowMs: int, offsetMs: int): (m: Option<string>)
    ensures m.Some? <==>
      parsed.history.Some? && |parsed.history.value| > 0 &&
      IsSameDay(parsed.history.value[|parsed.history.value| - 1].timestamp, nowMs, offsetMs)
    ensures m.Some? ==> m.value == parsed.history.value[|parsed.history.value| - 1].reportMessage
  {
    match parsed.history
    case Some(h) =>
      if |h| > 0 && IsSameDay(h[|h| - 1].timestamp, nowMs, offsetMs)
      then Some(h[|h| - 1].reportMessage)
      else None
    case None => None
  }

  // ---------------------------------------------------------------------
  // The gate and the streak transition
  // ---------------------------------------------------------------------

  /**
   * True iff the latest check-in was on the local calendar day of `nowMs`:
   * the instant lies within the 24 local hours of `lastCheckInDate`.
   */
  function HasCheckedInToday(lastCheckInDate: Option<DayNumber>, nowMs: int, offsetMs: int): (r: bool)
    ensures lastCheckInDate.None? ==> !r
    ensures lastCheckInDate.Some? ==>
      (r <==> lastCheckInDate.value * MS_PER_DAY <= nowMs + offsetMs < (lastCheckInDate.value + 1) * MS_PER_DAY)
  {
    match lastCheckInDate
    case None => false
    case Some(d) => d == LocalDay(nowMs, offsetMs)
  }

  /** The gate depends on the calendar day of the attempt, not on its time of day. */
  lemma GateIgnoresTimeOfDay(lastCheckInDate: Option<DayNumber>, a: int, b: int, offsetMs: int)
    requires IsSameDay(a, b, offsetMs)
    ensures HasCheckedInToday(lastCheckInDate, a, offsetMs) == HasCheckedInToday(lastCheckInDate, b, offsetMs)
  {
  }

  /**
   * The streak after a check-in on day `today`, by the difference in
   * calendar days from the previous check-in: none gives 1, one day gives
   * one more, more days give 1, the same day leaves it as it is. Like the
   * component, it looks at the absolute difference, so a date before the
   * previous one is measured backwards.
   */
  function NextStreak(streak: int, lastCheckInDate: Option<DayNumber>, today: DayNumber): (r: int)
    ensures lastCheckInDate.None? ==> r == 1
    ensures lastCheckInDate == Some(today - 1) ==> r == streak + 1
    ensures lastCheckInDate.Some? && lastCheckInDate.value < today - 1 ==> r == 1
    ensures lastCheckInDate == Some(today) ==> r == streak
    ensures lastCheckInDate.Some? && lastCheckInDate.value > today ==>
      r == (if lastCheckInDate.value == today + 1 then streak + 1 else 1)
  {
    match lastCheckInDate
    case None => 1
    case Some(last) =>
      var gap := Abs(today - last);
      if gap == 1 then streak + 1
      else if gap > 1 then 1
      else streak
  }

  /** A check-in the gate lets through never leaves a streak below 1. */
  lemma StreakPositiveAfterCheckIn(streak: int, lastCheckInDate: Option<DayNumber>, nowMs: int, offsetMs: int)
    requires streak >= 0
    requires !HasCheckedInToday(lastCheckInDate, nowMs, offsetMs)
    ensures NextStreak(streak, lastCheckInDate, LocalDay(nowMs, offsetMs)) >= 1
  {
  }

  // ---------------------------------------------------------------------
  // The streak as a function of the history
  // ---------------------------------------------------------------------

  /**
   * `k` is the length of the run of consecutive days that ends the date
   * sequence `ds`: the last `k` dates go up one day at a time, and the run
   * cannot be extended one date further back.
   */
  predicate IsTrailingRun(ds: seq<DayNumber>, k: nat)
  {
    && k <= |ds|
    && (|ds| > 0 ==> k >= 1)
    && (forall j :: |ds| - k <= j < |ds| - 1 ==> ds[j + 1] == ds[j] + 1)
    && (0 < k < |ds| ==> ds[|ds| - k] != ds[|ds| - k - 1] + 1)
  }

  /** The streak recomputed from the dates alone. */
  function RunLength(ds: seq<DayNumber>): (k: nat)
    ensures IsTrailingRun(ds, k)
  {
    if |ds| <= 1 then |ds|
    else if ds[|ds| - 1] == ds[|ds| - 2] + 1 then RunLength(ds[..|ds| - 1]) + 1
    else 1
  }

  /** There is only one trailing run, the one RunLength computes. */
  lemma TrailingRunUnique(ds: seq<DayNumber>, k: nat)
    requires IsTrailingRun(ds, k)
    ensures k == RunLength(ds)
  {
  }

  /**
   * Appending a later date extends the run exactly as the streak
   * transition does.
   */
  lemma RunLengthAfterCheckIn(ds: seq<DayNumber>, today: DayNumber)
    requires |ds| > 0 && ds[|ds| - 1] < today
    ensures RunLength(ds + [today]) == NextStreak(RunLength(ds), Some(ds[|ds| - 1]), today)
  {
    var ds' := ds + [today];
    assert ds'[..|ds'| - 1] == ds;
  }

  predicate StrictlyIncreasing(ds: seq<DayNumber>)
  {
    forall i, j :: 0 <= i < j < |ds| ==> ds[i] < ds[j]
  }

  /**
   * The invariants the check-ins keep: dates strictly increase (so there
   * is at most one record per day), the cached streak is the one the
   * history determines, and lastCheckInDate is the date of the latest
   * record, or null exactly when there is none.
   */
  predicate Consistent(s: AppState)
  {
    var ds := Dates(s.history);
    && StrictlyIncreasing(ds)
    && s.streak == RunLength(ds)
    && s.lastCheckInDate == (if |ds| == 0 then None else Some(ds[|ds| - 1]))
  }

  lemma InitialStateConsistent()
    ensures Consistent(INITIAL_STATE)
  {
  }

  /** In a consistent state no two records share a date. */
  lemma OneRecordPerDay(s: AppState)
    requires Consistent(s)
    ensures forall i, j :: 0 <= i < j < |s.history| ==> s.history[i].dateStr != s.history[j].dateStr
  {
    var ds := Dates(s.history);
    forall i, j | 0 <= i < j < |s.history|
      ensures s.history[i].dateStr != s.history[j].dateStr
    {
      assert ds[i] < ds[j];
    }
  }

  /**
   * A check-in on a day after the latest one, with the streak transition,
   * keeps the state consistent.
   */
  lemma ConsistentAfterCheckIn(s: AppState, rec: CheckInRecord)
    requires Consistent(s)
    requires s.lastCheckInDate.None? || s.lastCheckInDate.value < rec.dateStr
    ensures Consistent(AppState(
      NextStreak(s.streak, s.lastCheckInDate, rec.dateStr),
      Some(rec.dateStr),
      s.history + [rec]))
  {
    var ds := Dates(s.history);
    var ds' := Dates(s.history + [rec]);
    assert ds' == ds + [rec.dateStr];
    IncreasingAfterAppend(ds, rec.dateStr);
    if |ds| > 0 {
      RunLengthAfterCheckIn(ds, rec.dateStr);
    }
  }

  lemma IncreasingAfterAppend(ds: seq<DayNumber>, d: DayNumber)
    requires StrictlyIncreasing(ds)
    requires |ds| == 0 || ds[|ds| - 1] < d
    ensures StrictlyIncreasing(ds + [d])
  {
  }

  // ---------------------------------------------------------------------
  // The message to share
  // ---------------------------------------------------------------------

  /**
   * The message for the share card: the current message if non-empty,
   * else the latest record's, else the fixed default.
   */
  function GetLatestMessageForShare(currentMessage: string, history: seq<CheckInRecord>): (r: string)
    ensures currentMessage != "" ==> r == currentMessage
    ensures currentMessage == "" && |history| > 0 ==> r == history[|history| - 1].reportMessage
    ensures currentMessage == "" && |history| == 0 ==> r == DEFAULT_SHARE_MESSAGE
  {
    if currentMessage != "" then currentMessage
    else if |history| > 0 then history[|history| - 1].reportMessage
    else DEFAULT_SHARE_MESSAGE
  }

  /**
   * Right after a check-in the share card carries the new record's
   * message, even an empty one.
   */
  lemma ShareAfterCheckIn(history: seq<CheckInRecord>, rec: CheckInRecord)
    ensures GetLatestMessageForShare(rec.reportMessage, history + [rec]) == rec.reportMessage
  {
  }

  // ---------------------------------------------------------------------
  // The component's state cells
  // ---------------------------------------------------------------------

  /**
   * The App component's two pieces of engine state: the persisted
   * aggregate (replaced wholesale on every update) and the message on
   * display.
   */
  class AppComponent {
    var state: AppState
    var currentMessage: string

    constructor ()
      ensures state == INITIAL_STATE && currentMessage == ""
      ensures Consistent(state)
    {
      state := INITIAL_STATE;
      currentMessage := "";
    }

    /**
     * The mount-time load. `saved` is the parsed blob, or None when the
     * key is missing, empty or does not parse; then nothing changes.
     */
    method LoadSaved(saved: Option<StoredState>, nowMs: int, offsetMs: int)
      modifies this
      ensures saved.None? ==> state == old(state) && currentMessage == old(currentMessage)
      ensures saved.Some? ==> state == Merge(old(state), saved.value)
      ensures saved.Some? ==> currentMessage == MessageToRestore(saved.value, nowMs, offsetMs).GetOr(old(currentMessage))
    {
      if saved.Some? {
        var parsed := saved.value;
        state := Merge(state, parsed);
        if parsed.history.Some? && |parsed.history.value| > 0 {
          var lastRec := parsed.history.value[|parsed.history.value| - 1];
          if IsSameDay(lastRec.timestamp, nowMs, offsetMs) {
            currentMessage := lastRec.reportMessage;
          }
        }
      }
    }

    /**
     * One check-in at instant `nowMs` in a zone `offsetMs` east of UTC,
     * with the record id and message chosen by the caller. The gate is the
     * `isDated` flag of the last render, taken at instant `renderMs`: the
     * tap is turned away, with nothing changed, when at that render the
     * latest check-in was already on the render's day.
     */
    method HandleCheckIn(renderMs: int, nowMs: int, offsetMs: int, id: string, randomMsg: string)
      returns (accepted: bool)
      modifies this
      ensures accepted <==> !HasCheckedInToday(old(state.lastCheckInDate), renderMs, offsetMs)
      ensures !accepted ==> state == old(state) && currentMessage == old(currentMessage)
      ensures accepted ==>
        var today := LocalDay(nowMs, offsetMs);
        && state.streak == NextStreak(old(state.streak), old(state.lastCheckInDate), today)
        && state.lastCheckInDate == Some(today)
        && state.history == old(state.history) + [CheckInRecord(id, nowMs, today, randomMsg, CHECK_IN_MOOD)]
        && currentMessage == randomMsg
      ensures accepted ==> HasCheckedInToday(state.lastCheckInDate, nowMs, offsetMs)
      ensures accepted && old(state.streak) >= 0 && !HasCheckedInToday(old(state.lastCheckInDate), nowMs, offsetMs)
        ==> state.streak >= 1
      ensures accepted ==> GetLatestMessageForShare(currentMessage, state.history) == randomMsg
      ensures old(Consistent(state)) &&
        (old(state.lastCheckInDate).None? || old(state.lastCheckInDate).value < LocalDay(nowMs, offsetMs))
        ==> Consistent(state)
    {
      var isDated := HasCheckedInToday(state.lastCheckInDate, renderMs, offsetMs);
      if isDated {
        return false;
      }
      ghost var before := state;
      currentMessage := "";

      var today := LocalDay(nowMs, offsetMs);
      var newStreak := state.streak;
      if state.lastCheckInDate.Some? {
        var diffDays := Abs(today - state.lastCheckInDate.value);
        if diffDays == 1 {
          newStreak := newStreak + 1;
        } else if diffDays > 1 {
          newStreak := 1;
        }
      } else {
        newStreak := 1;
      }

      var newRecord := CheckInRecord(id, nowMs, today, randomMsg, CHECK_IN_MOOD);
      state := state.(streak := newStreak, lastCheckInDate := Some(today), history := state.history + [newRecord]);
      currentMessage := randomMsg;
      accepted := true;

      if Consistent(before) && (before.lastCheckInDate.None? || before.lastCheckInDate.value < today) {
        ConsistentAfterCheckIn(before, newRecord);
      }
    }
  }

  /**
   * A first launch whose stored blob does not parse, then check-ins on
   * 2024-01-01 (day 19723, twice), 2024-01-02 and 2024-01-04, at noon
   * UTC+8: the streak goes 1, 2, 1 and the repeat is turned away.
   */
  method CheckInScenario() returns (streaks: seq<int>, repeatAccepted: bool, historyLength: nat)
    ensures streaks == [1, 2, 1]
    ensures !repeatAccepted
    ensures historyLength == 3
  {
    var offset := 8 * 3600000;
    var noon := 4 * 3600000;
    var day1, day2, day4 := 19723 * MS_PER_DAY + noon, 19724 * MS_PER_DAY + noon, 19726 * MS_PER_DAY + noon;
    LocalDayOfInstantInDay(19723, day1, offset);
    LocalDayOfInstantInDay(19723, day1 + 3600000, offset);
    LocalDayOfInstantInDay(19724, day2, offset);
    LocalDayOfInstantInDay(19726, day4, offset);

    var app := new AppComponent();
    app.LoadSaved(None, day1, offset);
    var ok := app.HandleCheckIn(day1, day1, offset, "a", "m1");
    assert app.state.lastCheckInDate == Some(19723);
    streaks := [app.state.streak];
    repeatAccepted := app.HandleCheckIn(day1 + 3600000, day1 + 3600000, offset, "b", "m2");
    ok := app.HandleCheckIn(day2, day2, offset, "c", "m3");
    assert app.state.lastCheckInDate == Some(19724);
    streaks := streaks + [app.state.streak];
    ok := app.HandleCheckIn(day4, day4, offset, "d", "m4");
    streaks := streaks + [app.state.streak];
    historyLength := |app.state.history|;
  }
}
