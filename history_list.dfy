/**
 * The history tab (components/HistoryList.tsx): an empty history shows the
 * empty-state placeholder; otherwise a copy of the history sorted newest
 * first by timestamp is listed, one entry per record.
 */
module HistoryList {
  import opened Types

  /** What the tab shows. */
  datatype View = EmptyState | Entries(records: seq<CheckInRecord>)

  /** Non-increasing timestamps: the newest record comes first. */
  predicate NewestFirst(s: seq<CheckInRecord>)
  {
    forall i, j :: 0 <= i < j < |s| ==> s[i].timestamp >= s[j].timestamp
  }

  /**
   * Puts `rec` into a newest-first list, ahead of every record that is not
   * newer than it.
   */
  function Insert(rec: CheckInRecord, sorted: seq<CheckInRecord>): (r: seq<CheckInRecord>)
    requires NewestFirst(sorted)
    ensures NewestFirst(r)
    ensures multiset(r) == multiset(sorted) + multiset{rec}
    ensures forall y :: y in r ==> y == rec || y in sorted
  {
    if |sorted| == 0 then [rec]
    else if sorted[0].timestamp <= rec.timestamp then [rec] + sorted
    else
      var rest := Insert(rec, sorted[1..]);
      assert sorted == [sorted[0]] + sorted[1..];
      assert forall j :: 0 <= j < |rest| ==> sorted[0].timestamp >= rest[j].timestamp by {
        forall j | 0 <= j < |rest| ensures sorted[0].timestamp >= rest[j].timestamp {
          assert rest[j] in rest;
        }
      }
      [sorted[0]] + rest
  }

  /** `[...history].sort((a, b) => b.timestamp - a.timestamp)`. */
  function SortNewestFirst(s: seq<CheckInRecord>): (r: seq<CheckInRecord>)
    ensures NewestFirst(r)
    ensures multiset(r) == multiset(s)
  {
    if |s| == 0 then []
    else
      assert s == [s[0]] + s[1..];
      Insert(s[0], SortNewestFirst(s[1..]))
  }

  /**
   * The tab for a history: the placeholder exactly when it is empty,
   * otherwise every record exactly once, newest first. The history itself
   * is a value and is left as it was.
   */
  function ShowHistory(history: seq<CheckInRecord>): (v: View)
    ensures v.EmptyState? <==> |history| == 0
    ensures v.Entries? ==> NewestFirst(v.records)
    ensures v.Entries? ==> |v.records| == |history|
    ensures v.Entries? ==> forall r :: multiset(v.records)[r] == multiset(history)[r]
  {
    if |history| == 0 then EmptyState
    else
      var sorted := SortNewestFirst(history);
      assert |sorted| == |multiset(sorted)|;
      Entries(sorted)
  }

  function Reverse(s: seq<CheckInRecord>): (r: seq<CheckInRecord>)
    ensures |r| == |s|
    ensures forall i :: 0 <= i < |s| ==> r[i] == s[|s| - 1 - i]
  {
    if |s| == 0 then [] else Reverse(s[1..]) + [s[0]]
  }

  /** A record older than everything in the list goes to its end. */
  lemma {:induction false} InsertOldest(rec: CheckInRecord, sorted: seq<CheckInRecord>)
    requires NewestFirst(sorted)
    requires forall i :: 0 <= i < |sorted| ==> sorted[i].timestamp > rec.timestamp
    ensures Insert(rec, sorted) == sorted + [rec]
  {
    if |sorted| > 0 {
      InsertOldest(rec, sorted[1..]);
      assert sorted == [sorted[0]] + sorted[1..];
    }
  }

  /**
   * A history appended in creation order (timestamps strictly increasing)
   * is listed exactly in reverse.
   */
  lemma {:induction false} ChronologicalHistoryListedReversed(s: seq<CheckInRecord>)
    requires forall i, j :: 0 <= i < j < |s| ==> s[i].timestamp < s[j].timestamp
    ensures SortNewestFirst(s) == Reverse(s)
  {
    if |s| > 0 {
      var tail := s[1..];
      forall i, j | 0 <= i < j < |tail|
        ensures tail[i].timestamp < tail[j].timestamp
      {
        assert tail[i] == s[i + 1] && tail[j] == s[j + 1];
      }
      ChronologicalHistoryListedReversed(tail);
      var t := Reverse(tail);
      forall k | 0 <= k < |t|
        ensures t[k].timestamp > s[0].timestamp
      {
        assert t[k] == s[|s| - 1 - k];
      }
      InsertOldest(s[0], t);
      assert SortNewestFirst(s) == Insert(s[0], t);
    }
  }
}
