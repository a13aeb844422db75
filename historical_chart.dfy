/** The historical chart page: "time ago" text, the history collapsed to the
    latest entry per calendar day, newest first, with the change against the
    previous day. Times are integer milliseconds; the clock and the locale
    date formatting are parameters. */
module HistoricalChart {
  import opened Common
  import opened Text
  import opened Calendar
  import opened Sorting

  /** How long ago something happened, as `getTimeAgo` buckets it. */
  datatype Ago = JustNow | Elapsed(amount: int, unit: string)

  const MsPerMonth: int := 30 * MsPerDay

  /** The bucket of a difference of `diffMs` milliseconds, by the chain of
      `Math.floor` divisions into minutes, hours, days and 30-day months. */
  function Bucket(diffMs: int): (a: Ago)
    ensures a.JustNow? <==> diffMs < MsPerMinute
    ensures a.Elapsed? ==> a.amount >= 1
    ensures a.Elapsed? && a.unit == "minute" <==> MsPerMinute <= diffMs < MsPerHour
    ensures a.Elapsed? && a.unit == "hour" <==> MsPerHour <= diffMs < MsPerDay
    ensures a.Elapsed? && a.unit == "day" <==> MsPerDay <= diffMs < MsPerMonth
    ensures a.Elapsed? && a.unit == "month" <==> MsPerMonth <= diffMs
    ensures a.Elapsed? && a.unit == "minute" ==> a.amount * MsPerMinute <= diffMs < (a.amount + 1) * MsPerMinute
    ensures a.Elapsed? && a.unit == "hour" ==> a.amount * MsPerHour <= diffMs < (a.amount + 1) * MsPerHour
    ensures a.Elapsed? && a.unit == "day" ==> a.amount * MsPerDay <= diffMs < (a.amount + 1) * MsPerDay
    ensures a.Elapsed? && a.unit == "month" ==> a.amount * MsPerMonth <= diffMs < (a.amount + 1) * MsPerMonth
  {
    var diffMins := FloorDiv(diffMs, 60000);
    var diffHours := FloorDiv(diffMins, 60);
    var diffDays := FloorDiv(diffHours, 24);
    var diffMonths := FloorDiv(diffDays, 30);
    if diffMins < 1 then JustNow
    else if diffMins < 60 then Elapsed(diffMins, "minute")
    else if diffHours < 24 then Elapsed(diffHours, "hour")
    else if diffDays < 30 then Elapsed(diffDays, "day")
    else Elapsed(diffMonths, "month")
  }

  /** `${n} ${unit}${n > 1 ? 's' : ''} ago`. */
  function AgoText(a: Ago): string {
    match a
    case JustNow => "just now"
    case Elapsed(n, unit) => IntToString(n) + " " + unit + (if n > 1 then "s" else "") + " ago"
  }

  /** `getTimeAgo`. */
  function GetTimeAgo(now: int, recordedAt: int): string {
    AgoText(Bucket(now - recordedAt))
  }

  /** The plural "s" is there exactly when more than one unit has passed. */
  lemma PluralIffMany(now: int, recordedAt: int)
    requires Bucket(now - recordedAt).Elapsed?
    ensures var s := GetTimeAgo(now, recordedAt);
            var n := Bucket(now - recordedAt).amount;
            |s| >= 5 && (s[|s| - 5..] == "s ago" <==> n > 1)
  {
    var a := Bucket(now - recordedAt);
    var s := GetTimeAgo(now, recordedAt);
    var head := IntToString(a.amount) + " " + a.unit;
    assert head[|head| - 1] != 's';
    if a.amount > 1 {
      assert s == head + "s ago";
      assert s[|s| - 5..] == "s ago";
    } else {
      assert s == head + " ago";
      assert s[|s| - 5] == head[|head| - 1];
    }
  }

  /** A row of the vocabulary history. */
  datatype HistoryEntry = HistoryEntry(id: int, wordCount: int, recordedAt: int)

  /** The `dailyHistory` object: formatted date to entry, in insertion
      order. */
  type Daily = seq<(string, HistoryEntry)>

  function Dates(d: Daily): (ds: seq<string>)
    ensures |ds| == |d| && forall i :: 0 <= i < |d| ==> ds[i] == d[i].0
  {
    seq(|d|, i requires 0 <= i < |d| => d[i].0)
  }

  /** One step of the `reduce`: a new date is added; an existing date takes
      the entry only when it is strictly later. */
  function Keep(acc: Daily, date: string, entry: HistoryEntry): (r: Daily)
  {
    if acc == [] then [(date, entry)]
    else if acc[0].0 == date then
      (if entry.recordedAt > acc[0].1.recordedAt then [(date, entry)] else [acc[0]]) + acc[1..]
    else [acc[0]] + Keep(acc[1..], date, entry)
  }

  /** The reduce over the whole history. */
  function DailyHistoryOf(history: seq<HistoryEntry>, formatDate: int -> string): Daily {
    if history == [] then []
    else
      var last := history[|history| - 1];
      Keep(DailyHistoryOf(history[..|history| - 1], formatDate), formatDate(last.recordedAt), last)
  }

  /** `history.reduce(...)`, entry by entry. */
  method DailyHistory(history: seq<HistoryEntry>, formatDate: int -> string) returns (acc: Daily)
    ensures acc == DailyHistoryOf(history, formatDate)
  {
    acc := [];
    var i := 0;
    while i < |history|
      invariant 0 <= i <= |history|
      invariant acc == DailyHistoryOf(history[..i], formatDate)
    {
      assert history[..i + 1][..i] == history[..i];
      acc := Keep(acc, formatDate(history[i].recordedAt), history[i]);
      i := i + 1;
    }
    assert history[..i] == history;
  }

  /** Some entry of `history` falls on `date`. */
  predicate HasDate(history: seq<HistoryEntry>, formatDate: int -> string, date: string) {
    exists k :: 0 <= k < |history| && formatDate(history[k].recordedAt) == date
  }

  /** `acc[date]`. */
  function Find(d: Daily, date: string): Option<HistoryEntry> {
    if d == [] then None else if d[0].0 == date then Some(d[0].1) else Find(d[1..], date)
  }

  predicate DistinctDates(d: Daily) {
    forall i, j :: 0 <= i < j < |d| ==> d[i].0 != d[j].0
  }

  lemma {:induction false} KeepFind(acc: Daily, date: string, entry: HistoryEntry, x: string)
    ensures Find(Keep(acc, date, entry), x)
            == if x != date then Find(acc, x)
               else if Find(acc, x).None? || entry.recordedAt > Find(acc, x).value.recordedAt then Some(entry)
               else Find(acc, x)
  {
    if acc != [] && acc[0].0 != date {
      KeepFind(acc[1..], date, entry, x);
      assert Keep(acc, date, entry) == [acc[0]] + Keep(acc[1..], date, entry);
    }
  }

  lemma KeepDates(acc: Daily, date: string, entry: HistoryEntry)
    ensures forall x :: x in Dates(Keep(acc, date, entry)) <==> x in Dates(acc) || x == date
    ensures DistinctDates(acc) ==> DistinctDates(Keep(acc, date, entry))
  {
    KeepDatesIn(acc, date, entry);
    if DistinctDates(acc) {
      KeepDistinct(acc, date, entry);
    }
  }

  lemma {:induction false} KeepDatesIn(acc: Daily, date: string, entry: HistoryEntry)
    ensures forall x :: x in Dates(Keep(acc, date, entry)) <==> x in Dates(acc) || x == date
  {
    var r := Keep(acc, date, entry);
    if acc == [] {
      assert Dates(r) == [date];
    } else if acc[0].0 == date {
      assert |r| == |acc| && r[0].0 == acc[0].0;
      assert forall i :: 1 <= i < |r| ==> r[i] == acc[i];
      assert Dates(r) == Dates(acc);
      assert Dates(acc)[0] == date;
    } else {
      var rest := acc[1..];
      KeepDatesIn(rest, date, entry);
      assert r == [acc[0]] + Keep(rest, date, entry);
      assert Dates(r) == [acc[0].0] + Dates(Keep(rest, date, entry));
      assert Dates(acc) == [acc[0].0] + Dates(rest);
    }
  }

  lemma {:induction false} KeepDistinct(acc: Daily, date: string, entry: HistoryEntry)
    requires DistinctDates(acc)
    ensures DistinctDates(Keep(acc, date, entry))
  {
    var r := Keep(acc, date, entry);
    if acc != [] && acc[0].0 == date {
      assert |r| == |acc| && r[0].0 == acc[0].0;
      assert forall i :: 1 <= i < |r| ==> r[i] == acc[i];
    } else if acc != [] {
      var rest := acc[1..];
      var kept := Keep(rest, date, entry);
      assert DistinctDates(rest);
      KeepDistinct(rest, date, entry);
      KeepDatesIn(rest, date, entry);
      assert r == [acc[0]] + kept;
      forall i, j | 0 <= i < j < |r| ensures r[i].0 != r[j].0 {
        if i == 0 {
          assert r[j] == kept[j - 1] && Dates(kept)[j - 1] == r[j].0;
          assert acc[0].0 !in Dates(rest) by {
            forall k | 0 <= k < |rest| ensures Dates(rest)[k] != acc[0].0 {
              assert rest[k] == acc[k + 1];
            }
          }
        } else {
          assert r[i] == kept[i - 1] && r[j] == kept[j - 1];
        }
      }
    }
  }

  /** The dates of the collapsed history are distinct and are exactly the
      dates of the entries. */
  lemma {:induction false} DailyHistoryDates(history: seq<HistoryEntry>, formatDate: int -> string)
    ensures DistinctDates(DailyHistoryOf(history, formatDate))
    ensures forall x :: x in Dates(DailyHistoryOf(history, formatDate)) <==> HasDate(history, formatDate, x)
  {
    if history != [] {
      var init, last := history[..|history| - 1], history[|history| - 1];
      DailyHistoryDates(init, formatDate);
      KeepDates(DailyHistoryOf(init, formatDate), formatDate(last.recordedAt), last);
      forall x ensures HasDate(history, formatDate, x)
                       <==> HasDate(init, formatDate, x) || x == formatDate(last.recordedAt)
      {
        if exists k :: 0 <= k < |history| && formatDate(history[k].recordedAt) == x {
          var k :| 0 <= k < |history| && formatDate(history[k].recordedAt) == x;
          if k < |init| {
            assert init[k] == history[k];
          }
        }
        if exists k :: 0 <= k < |init| && formatDate(init[k].recordedAt) == x {
          var k :| 0 <= k < |init| && formatDate(init[k].recordedAt) == x;
          assert history[k] == init[k];
        }
      }
    }
  }

  /** Each date holds an entry of the history with that date, and no entry
      of that date is later. */
  lemma {:induction false} DailyHistoryLatest(history: seq<HistoryEntry>, formatDate: int -> string, x: string)
    ensures Find(DailyHistoryOf(history, formatDate), x).Some? <==> HasDate(history, formatDate, x)
    ensures Find(DailyHistoryOf(history, formatDate), x).Some? ==>
            var e := Find(DailyHistoryOf(history, formatDate), x).value;
            e in history && formatDate(e.recordedAt) == x
            && forall k :: 0 <= k < |history| && formatDate(history[k].recordedAt) == x ==>
                 history[k].recordedAt <= e.recordedAt
  {
    if history != [] {
      var init, last := history[..|history| - 1], history[|history| - 1];
      DailyHistoryLatest(init, formatDate, x);
      KeepFind(DailyHistoryOf(init, formatDate), formatDate(last.recordedAt), last, x);
      forall k | 0 <= k < |init| ensures history[k] == init[k] {
      }
      assert history == init + [last];
    }
  }

  function RowTime(row: (string, HistoryEntry)): int {
    row.1.recordedAt
  }

  /** `dailyHistoryArray`: the collapsed history, latest first. */
  function DailyHistoryArray(history: seq<HistoryEntry>, formatDate: int -> string): (rows: Daily)
    ensures SortedDesc(rows, RowTime)
    ensures multiset(rows) == multiset(DailyHistoryOf(history, formatDate))
  {
    SortByKeyDesc(DailyHistoryOf(history, formatDate), RowTime)
  }

  /** The change shown on row `i`: its word count minus the next (older)
      row's, and 0 on the last row. */
  function Change(rows: Daily, i: nat): int
    requires i < |rows|
  {
    if i + 1 < |rows| then rows[i].1.wordCount - rows[i + 1].1.wordCount else 0
  }

  function SumChanges(rows: Daily, from: nat): int
    requires from <= |rows|
    decreases |rows| - from
  {
    if from == |rows| then 0 else Change(rows, from) + SumChanges(rows, from + 1)
  }

  /** The changes from row `from` on add up to the growth from the oldest
      row to row `from`. */
  lemma {:induction false} ChangesTelescope(rows: Daily, from: nat)
    requires from < |rows|
    ensures SumChanges(rows, from) == rows[from].1.wordCount - rows[|rows| - 1].1.wordCount
    decreases |rows| - from
  {
    if from + 1 < |rows| {
      ChangesTelescope(rows, from + 1);
    } else {
      assert SumChanges(rows, from + 1) == 0;
    }
  }

  /** The badge of a change: none for 0, green "+n" for growth, red "-n"
      otherwise. */
  function ChangeBadge(change: int): (b: Option<(string, string)>)
    ensures b.None? <==> change == 0
    ensures b.Some? ==> |b.value.0| > 0 && (b.value.0[0] == '+' <==> change > 0) && (b.value.0[0] == '-' <==> change < 0)
    ensures b.Some? ==> (b.value.1 == "bg-green-100 text-green-800" <==> change > 0)
  {
    if change == 0 then None
    else if change > 0 then Some(("+" + IntToString(change), "bg-green-100 text-green-800"))
    else Some((IntToString(change), "bg-red-100 text-red-800"))
  }

  /** The progress overview: the first ten rows, each with its change
      against the following row of the whole array. */
  function Overview(rows: Daily): (o: seq<((string, HistoryEntry), int)>)
    ensures |o| == Min(10, |rows|)
    ensures forall i :: 0 <= i < |o| ==> o[i].0 == rows[i] && o[i].1 == Change(rows, i)
  {
    seq(Min(10, |rows|), i requires 0 <= i < Min(10, |rows|) => (rows[i], Change(rows, i)))
  }

  /** The page's loaded history and its "Last Updated" time. */
  class HistoricalChartPage {
    var history: seq<HistoryEntry>
    var lastUpdated: Option<int>
    var loading: bool
    var updating: bool

    constructor ()
      ensures history == [] && lastUpdated.None? && loading && !updating
    {
      history := [];
      lastUpdated := None;
      loading := true;
      updating := false;
    }

    /** `fetchHistory`: a successful answer replaces the history and, when
        it is not empty, sets "Last Updated" to its first row's time; loading
        ends either way. */
    method FetchHistory(ok: bool, data: seq<HistoryEntry>)
      modifies this
      ensures history == if ok then data else old(history)
      ensures lastUpdated == if ok && |data| > 0 then Some(data[0].recordedAt) else old(lastUpdated)
      ensures !loading && updating == old(updating)
    {
      if ok {
        history := data;
        if |data| > 0 {
          lastUpdated := Some(data[0].recordedAt);
        }
      }
      loading := false;
    }

    /** `updateChart`: after a successful post the history is fetched again;
        the updating flag is clear at the end. */
    method UpdateChart(posted: bool, fetchOk: bool, data: seq<HistoryEntry>)
      modifies this
      ensures posted ==> history == (if fetchOk then data else old(history)) && !loading
      ensures posted ==> lastUpdated == if fetchOk && |data| > 0 then Some(data[0].recordedAt) else old(lastUpdated)
      ensures !posted ==> history == old(history) && lastUpdated == old(lastUpdated) && loading == old(loading)
      ensures !updating
    {
      updating := true;
      if posted {
        FetchHistory(fetchOk, data);
      }
      updating := false;
    }
  }

  /** The "Last Updated" line. */
  function LastUpdatedText(lastUpdated: Option<int>, now: int, formatDateTime: int -> string): (s: string)
    ensures lastUpdated.None? <==> s == "Never updated"
  {
    if lastUpdated.None? then "Never updated"
    else
      var ago := GetTimeAgo(now, lastUpdated.value);
      var t := formatDateTime(lastUpdated.value) + ", " + ago;
      AgoEnding(Bucket(now - lastUpdated.value));
      assert t[|t| - 1] == ago[|ago| - 1];
      t
  }

  lemma AgoEnding(a: Ago)
    ensures |AgoText(a)| > 0 && AgoText(a)[|AgoText(a)| - 1] != 'd'
  {
  }
}
