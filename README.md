# Daily check-in tracker: the check-in engine in Dafny

This project models the core of a one-tap daily check-in tracker. The user
checks in at most once per calendar day. Each check-in is stored as a
record in an append-only history, and a streak counts consecutive days.
The state is kept in device storage and merged over the initial state on
load. Two views read the history: a seven-day presence chart and a list
sorted newest first.

Modules: `Types`, `App`, `StatsChart` and `HistoryList` each follow one
source file; `Wrappers`, `Calendar` and `AppAsWritten` are supporting
modules:

- `Wrappers` (`wrappers.dfy`): `Option`.
- `Types` (`types.dfy`, from `types.ts`): `CheckInRecord` and `AppState`.
- `Calendar` (`calendar.dfy`): the JavaScript `Date` and date-fns
  operations the app uses, on integers. An instant is an epoch
  millisecond. A date is a day number: days since 1970-01-01, standing for
  a `yyyy-MM-dd` string. A time zone is a fixed offset from UTC.
- `App` (`app.dfy`, from `App.tsx`) holds the engine:
  - the initial state;
  - the shallow merge of the stored blob on load;
  - the "already checked in today" gate;
  - the streak transition and the record append;
  - the fallback order of the share message;
  - class `AppComponent`, which holds the component's two state cells
    (`state` and `currentMessage`) and has the methods `LoadSaved` and
    `HandleCheckIn`.

  It uses the calendar-day rules. It also gives a reference definition of
  the streak as the length of the trailing run of consecutive dates, and
  proves that a check-in keeps the cached streak equal to it.
- `AppAsWritten` (`app_as_written.dfy`): the gate and the day gap of
  `App.tsx` as the code computes them, under the same simplifications as
  the rest of the model (a fixed zone offset, and the gate evaluated at a
  given instant), with lemmas that show where it departs from the
  calendar rules (see Findings).
- `StatsChart` (`stats_chart.dfy`): the seven-day presence data.
- `HistoryList` (`history_list.dfy`): the empty-state branch and the
  newest-first sorted copy.

Record ids, messages, the current instant and the zone offset are
parameters. The model has no clock, no randomness and no storage access.

## Model

| member | source | states |
|---|---|---|
| Calendar.LocalDay | App.tsx:71-72 | the local date of an instant is the day whose 24 local hours contain it |
| Calendar.UtcMidnight | App.tsx:76 | parsing a `yyyy-MM-dd` date gives exactly midnight UTC of that date: the instant lies in that UTC day and the millisecond before it lies in the previous day |
| Calendar.IsSameDay | App.tsx:56 | date-fns `isSameDay`: true iff the second instant lies within the 24 local hours of the first instant's local day |
| App.Serialize | App.tsx:50-52 | saving writes all three state fields |
| App.Merge | App.tsx:31-34 | a field present in the stored blob replaces the previous one; an absent field keeps it |
| App.LoadAfterSave | App.tsx:29-52 | loading a saved state gives that state back, whatever it is merged over |
| App.LoadOfEmptyObject | App.tsx:15-34 | a blob with no fields leaves the state, for example the initial one, unchanged |
| App.MergeIdempotent | App.tsx:34 | merging the same blob twice is the same as merging it once |
| App.MessageToRestore | App.tsx:36-42 | a message is restored exactly when the stored history is non-empty and its last record is from today; it is that record's message |
| App.HasCheckedInToday | App.tsx:54-57 | false without a last date; otherwise true iff now falls within the 24 local hours of the last date |
| App.GateIgnoresTimeOfDay | App.tsx:54-57 | two instants on the same local day get the same answer from the gate |
| App.NextStreak | App.tsx:74-87 | the calendar streak rule: no last date gives 1; a gap of one day gives streak + 1; a longer gap gives 1; the same day leaves the streak unchanged; a last date after today is measured by the absolute gap, as `Math.abs` does |
| App.StreakPositiveAfterCheckIn | App.tsx:74-87 | a check-in that the gate accepts, from a non-negative streak, gives a streak of at least 1 |
| App.RunLength | App.tsx:74-87 | the streak recomputed from the dates is the unique length of the trailing run of consecutive days |
| App.TrailingRunUnique | App.tsx:74-87 | any trailing-run length of a date sequence equals `RunLength` of it |
| App.RunLengthAfterCheckIn | App.tsx:74-107 | appending a later date changes the run length exactly as the streak transition changes the streak |
| App.InitialStateConsistent | App.tsx:15-19 | the initial state meets the invariant: streak 0, no last date, empty history |
| App.OneRecordPerDay | App.tsx:54-65 | in a consistent state no two records have the same date |
| App.ConsistentAfterCheckIn | App.tsx:74-107 | a check-in on a later day keeps these facts: dates strictly increase, the streak equals the recomputed run, and the last date is the last record's date |
| App.GetLatestMessageForShare | App.tsx:126-132 | the current message if non-empty, else the last record's message, else the fixed default |
| App.ShareAfterCheckIn | App.tsx:102-132 | right after a check-in the share message is the new record's message |
| App.AppComponent.constructor | App.tsx:15-24 | starts from streak 0, no last date, empty history and an empty message |
| App.AppComponent.LoadSaved | App.tsx:29-47 | a blob that is missing or does not parse changes nothing; otherwise the state becomes the merge and the message is restored as `MessageToRestore` says |
| App.AppComponent.HandleCheckIn | App.tsx:54-124 | accepted iff the gate, evaluated at the last render, says not yet checked in; if refused, nothing changes; if accepted, exactly one record is appended, the last date becomes the tap's day and the streak follows `NextStreak`; afterwards the gate refuses the rest of that day; the streak is at least 1 unless the last date is the tap's day; the share message is the new one; and the invariant is kept |
| App.CheckInScenario | App.tsx:54-107 | an unparseable blob loads as the initial state; check-ins on 2024-01-01, 01-02 and 01-04 give streaks 1, 2, 1; a repeat on 01-01 is refused |
| AppAsWritten.HasCheckedInToday | App.tsx:54-57 | the gate as written: false without a last date; otherwise true iff UTC midnight of the last date lies within today's 24 local hours |
| AppAsWritten.NewStreak | App.tsx:74-87 | the streak rule as written, on the millisecond gap `DiffDays`: 1 without a last date; streak + 1 for gap 1; 1 for a larger gap; unchanged at gap 0 |
| AppAsWritten.DiffDays | App.tsx:76-78 | the source's day gap is the ceiling of the elapsed milliseconds over a day; it is 0 only at exactly UTC midnight of the last date |
| AppAsWritten.NextDayBreaksStreakEastOfUtc | App.tsx:74-84 | east of UTC, a check-in on the next local day after the zone offset's hour gets gap 2, so the streak resets, where the calendar rule adds one |
| AppAsWritten.NextDayExampleUtcPlus8 | App.tsx:76-83 | 2024-01-01, then 2024-01-02 20:00 at UTC+8: gap 2 and a streak of 5 reset to 1, where the calendar rule gives 6 |
| AppAsWritten.GateAgreesEastOfUtc | App.tsx:54-57 | at or east of UTC, the source's gate agrees with the calendar gate |
| AppAsWritten.GateMissesSameDayWestOfUtc | App.tsx:54-57 | west of UTC, the source's gate does not see a check-in made earlier the same local day |
| AppAsWritten.SameDayRepeatRaisesStreakWestOfUtc | App.tsx:54-81 | that repeated same-day check-in, before 24 hours minus the offset, raises the streak by one |
| AppAsWritten.SameDayExampleUtcMinus5 | App.tsx:54-81 | at UTC-5, a second check-in at 10:00 on 2024-01-01 gets through and raises streak 1 to 2 |
| StatsChart.Last7Days | components/StatsChart.tsx:13-28 | seven entries for `today - 6` up to `today`; an entry's value is 1 iff some record has that date, else 0 |
| StatsChart.HasCheckInOn | components/StatsChart.tsx:21 | `history.some(...)`: true iff some record at some index has that date |
| StatsChart.WindowEndsToday | components/StatsChart.tsx:14-19 | the entries are consecutive days, oldest first, and the last one is today |
| StatsChart.EmptyHistoryAllZero | components/StatsChart.tsx:21-25 | an empty history gives seven zeros |
| StatsChart.OutsideWindowIgnored | components/StatsChart.tsx:19-21 | records dated outside the window do not change any entry |
| StatsChart.PresenceNotCount | components/StatsChart.tsx:21-25 | another record on a day that already has one changes nothing: values are presence flags, not counts |
| HistoryList.Insert | components/HistoryList.tsx:24 | inserting into a newest-first list keeps it newest first and adds exactly that record |
| HistoryList.SortNewestFirst | components/HistoryList.tsx:24 | the sorted copy has non-increasing timestamps and is a permutation of the history |
| HistoryList.ShowHistory | components/HistoryList.tsx:14-28 | the empty state is shown iff the history is empty; otherwise every record is listed exactly as often as it occurs, newest first |
| HistoryList.ChronologicalHistoryListedReversed | components/HistoryList.tsx:24 | a history appended in creation order (increasing timestamps) is listed exactly reversed |

## Findings

| source | as written | input that shows it | evidently intended | confidence | as-written member | corrected member |
|---|---|---|---|---|---|---|
| App.tsx:76-78 | the gap is `ceil(abs(now - UTC midnight of last date) / 86400000)` | last check-in on 2024-01-01; check in on 2024-01-02 at 20:00, UTC+8: gap 2, so the streak resets | the gap is the number of local calendar days, so the next day extends the streak | high (not executed) | AppAsWritten.NextDayBreaksStreakEastOfUtc | App.ConsistentAfterCheckIn |
| App.tsx:56 | the gate compares the local day of UTC midnight of the stored date with today | at UTC-5, check in on 2024-01-01, then again at 10:00 the same day: the gate lets the repeat through and the streak goes from 1 to 2 | the gate compares the stored date with today's local date | high (not executed) | AppAsWritten.SameDayExampleUtcMinus5 | App.HasCheckedInToday |

The rest of the model (`App.AppComponent.HandleCheckIn`) uses the
calendar rules. The source shows that it means calendar days: the gap is
held in a variable named `diffDays` (App.tsx:78), a larger gap is commented
as a broken streak (App.tsx:83), the record's date is the local date
`todayStr` (App.tsx:72), and a refused tap is told that today's report was
already made (App.tsx:63).

## Left out

- Rendering, styling, tabs, modal visibility, the loading flag, confetti and
  toasts: these are presentation only.
- The 800 ms and 1500 ms timers. A check-in is one synchronous step. The
  source computes the new streak from the state seen by the handler and
  appends to the state seen by the updater. In one step these are the same
  state.
- App.AppComponent.HandleCheckIn: the gate is taken at `renderMs`, the
  instant of the last render, as the source's `isDated` is. How that
  instant relates to the tap is not modelled. If no re-render happens
  between the check-in day and a tap after midnight, the gate still sees
  the old day and refuses the tap.
- App.AppComponent.HandleCheckIn: the record's timestamp is the same
  instant the date was taken from; the source reads the clock twice, 800 ms
  apart.
- App.AppComponent.HandleCheckIn: the invariant `Consistent` is preserved
  only when the new day is after the last date. The source does not require
  that. If the clock is set back, it uses the absolute gap, as the model
  does, and the date order can break.
- The random choice of the message (`Math.random` over `REPORT_SCRIPTS`)
  and `crypto.randomUUID`: both are parameters of `HandleCheckIn`.
  `REPORT_SCRIPTS` is imported by `App.tsx`, but `constants.ts` does not
  define it: it defines `APP_STORAGE_KEY`, `PERSONALITY_DESCRIPTIONS` and
  `MOCK_REPLIES`.
- `localStorage` and JSON. A missing key, an empty value or a parse failure
  is `None` for `LoadSaved`. A stored field with the wrong type, and any
  extra field, is not modelled.
- Dates: a time zone is a fixed offset, so daylight-saving changes are not
  modelled. Date strings are day numbers, so `format` and the parsing of
  the string are not modelled.
- StatsChart.Last7Days: `today` is a parameter. In the source, the chart's
  `new Date()` is memoised on `[history]`, so its "today" is the day of the
  last change to the history, not the day of the current render.
- StatsChart.Last7Days: the weekday label (`EEE` in the zhCN locale) of each
  entry is not modelled.
- HistoryList.SortNewestFirst: the order of records with equal timestamps
  is not stated. The model's insertion keeps input order, and JavaScript's
  sort is stable, but no lemma says so. The rendered timestamp format is
  not modelled.
- `services/geminiService.ts`, `components/ShareModal.tsx`,
  `components/MomFeedback.tsx`, `components/ErrorBoundary.tsx`,
  `capacitor.config.ts` and `constants.ts` are not part of this model. They
  are a network call, clipboard and image export, presentation,
  configuration and data.
