/** The weekly streak report of the Greek vocabulary tracker: the rows of
    `greek_weekly_activity` that have activity are reduced to their
    `week_start` dates, here day numbers, and from them the current streak
    (consecutive weeks ending this week or last week) and the longest streak
    (longest run of weeks each seven days after the previous) are computed. */
module WeeklyStreaks {
  import opened Sorting
  import opened Calendar

  /** `getWeekStart`: the Monday of the week containing `day`, where a Sunday
      belongs to the week that started six days earlier. */
  function GetWeekStart(day: int): (monday: int)
    ensures Weekday(monday) == 1
    ensures day - 6 <= monday <= day
    ensures Weekday(day) == 0 ==> monday == day - 6
  {
    var wd := Weekday(day);
    var r := day - wd + (if wd == 0 then -6 else 1);
    WeekdayShift(day, r - day);
    r
  }

  /** The longest prefix of `s` equal to `c`, `c - step`, `c - 2 * step`, ... */
  function RunFrom(s: seq<int>, c: int, step: int): (n: nat)
    ensures n <= |s|
  {
    if s == [] || s[0] != c then 0 else 1 + RunFrom(s[1..], c - step, step)
  }

  /** The current streak over weeks sorted newest first, anchored at `c`: the
      count starts at this week, or at last week when the newest row is last
      week's; a newest row that is neither gives 0. */
  function CurrentRun(s: seq<int>, c: int, step: int): nat {
    if s == [] then 0
    else if s[0] == c then RunFrom(s, c, step)
    else if s[0] < c && s[0] == c - step then RunFrom(s, c - step, step)
    else 0
  }

  /** The current streak for the week starts `weeks` on day `today`. */
  function CurrentStreak(weeks: seq<int>, today: int): nat {
    CurrentRun(SortDescending(weeks), GetWeekStart(today), 7)
  }

  /** `calculateCurrentStreak`, with "now" given as a day number. */
  method CalculateCurrentStreak(weeks: seq<int>, today: int) returns (streak: nat)
    ensures streak == CurrentStreak(weeks, today)
  {
    if |weeks| == 0 {
      return 0;
    }
    var currentWeekStart := GetWeekStart(today);
    var sortedData := SortDescending(weeks);
    streak := CountStreak(sortedData, currentWeekStart);
  }

  /** The loop of `calculateCurrentStreak` over the rows sorted newest first. */
  method CountStreak(sortedData: seq<int>, currentWeekStart: int) returns (streak: nat)
    requires sortedData != []
    ensures streak == CurrentRun(sortedData, currentWeekStart, 7)
  {
    streak := 0;
    var checkDate := currentWeekStart;
    ghost var anchor := if sortedData[0] == currentWeekStart then currentWeekStart else currentWeekStart - 7;
    var i := 0;
    while i < |sortedData|
      invariant 0 <= i <= |sortedData|
      invariant i == 0 ==> streak == 0 && checkDate == currentWeekStart
      invariant i > 0 ==> streak == i && checkDate == anchor - 7 * i
      invariant i > 0 ==> CurrentRun(sortedData, currentWeekStart, 7)
                          == i + RunFrom(sortedData[i..], checkDate, 7)
    {
      var activityWeek := sortedData[i];
      assert sortedData[i..][0] == activityWeek && sortedData[i..][1..] == sortedData[i + 1..];
      if activityWeek == checkDate {
        streak := streak + 1;
        checkDate := checkDate - 7;
      } else {
        if i == 0 && activityWeek < currentWeekStart {
          var lastWeekStart := currentWeekStart - 7;
          if activityWeek == lastWeekStart {
            streak := streak + 1;
            checkDate := lastWeekStart - 7;
            i := i + 1;
            continue;
          }
        }
        break;
      }
      i := i + 1;
    }
  }

  /** The current streak is the number of leading rows that hit the expected
      Mondays, and the row after them (if any) misses. */
  lemma {:induction false} RunFromMeaning(s: seq<int>, c: int, step: int)
    ensures forall k :: 0 <= k < RunFrom(s, c, step) ==> s[k] == c - step * k
    ensures RunFrom(s, c, step) < |s| ==> s[RunFrom(s, c, step)] != c - step * RunFrom(s, c, step)
  {
    if s != [] && s[0] == c {
      RunFromMeaning(s[1..], c - step, step);
      forall k | 0 <= k < RunFrom(s, c, step) ensures s[k] == c - step * k {
        if k > 0 {
          assert s[k] == s[1..][k - 1];
        }
      }
    }
  }

  /** Rows sorted newest first: a repeated week stops the run at the repeat. */
  lemma {:induction false} DuplicateEndsRun(s: seq<int>, c: int, j: int)
    requires 0 <= j < |s| - 1 && s[j] == s[j + 1]
    ensures RunFrom(s, c, 7) <= j + 1
  {
    RunFromMeaning(s, c, 7);
    if RunFrom(s, c, 7) > j + 1 {
      assert s[j] == c - 7 * j && s[j + 1] == c - 7 * (j + 1);
    }
  }

  lemma CurrentStreakEmpty(today: int)
    ensures CurrentStreak([], today) == 0
  {
  }

  /** The newest week is this week's Monday: count from it. */
  lemma CurrentStreakFromThisWeek(weeks: seq<int>, today: int)
    requires weeks != []
    requires SortDescending(weeks)[0] == GetWeekStart(today)
    ensures CurrentStreak(weeks, today) == RunFrom(SortDescending(weeks), GetWeekStart(today), 7)
    ensures CurrentStreak(weeks, today) >= 1
  {
  }

  /** No row for this week yet but one for last week: count from last week. */
  lemma CurrentStreakFromLastWeek(weeks: seq<int>, today: int)
    requires weeks != []
    requires SortDescending(weeks)[0] == GetWeekStart(today) - 7
    ensures CurrentStreak(weeks, today) == RunFrom(SortDescending(weeks), GetWeekStart(today) - 7, 7)
    ensures CurrentStreak(weeks, today) >= 1
  {
  }

  /** Any other newest week, a future one included, breaks the streak. */
  lemma CurrentStreakBroken(weeks: seq<int>, today: int)
    requires weeks != []
    requires SortDescending(weeks)[0] != GetWeekStart(today)
    requires SortDescending(weeks)[0] != GetWeekStart(today) - 7
    ensures CurrentStreak(weeks, today) == 0
  {
  }

  /** The current streak never exceeds the number of rows. */
  lemma CurrentStreakBounded(weeks: seq<int>, today: int)
    ensures CurrentStreak(weeks, today) <= |weeks|
  {
  }

  /** Length of the run of weeks, each seven days after the one before, that
      ends at index `i` of the ascending rows. */
  function RunEndingAt(s: seq<int>, i: int): (n: nat)
    requires 0 <= i < |s|
    ensures 1 <= n <= i + 1
  {
    if i == 0 then 1
    else if s[i] - s[i - 1] == 7 then RunEndingAt(s, i - 1) + 1
    else 1
  }

  /** The largest `RunEndingAt` among the first `n` rows. */
  function MaxRun(s: seq<int>, n: int): (m: nat)
    requires 1 <= n <= |s|
    ensures 1 <= m <= n
  {
    if n == 1 then 1 else Common.Max(MaxRun(s, n - 1), RunEndingAt(s, n - 1))
  }

  /** The longest streak for the week starts `weeks`. */
  function LongestStreak(weeks: seq<int>): nat {
    if weeks == [] then 0 else MaxRun(SortAscending(weeks), |weeks|)
  }

  /** `calculateLongestStreak`. */
  method CalculateLongestStreak(weeks: seq<int>) returns (maxStreak: nat)
    ensures maxStreak == LongestStreak(weeks)
  {
    if |weeks| == 0 {
      return 0;
    }
    var sortedData := SortAscending(weeks);
    maxStreak := 1;
    var currentStreak := 1;
    var i := 1;
    while i < |sortedData|
      invariant 1 <= i <= |sortedData|
      invariant currentStreak == RunEndingAt(sortedData, i - 1)
      invariant maxStreak == MaxRun(sortedData, i)
    {
      var daysDiff := sortedData[i] - sortedData[i - 1];
      if daysDiff == 7 {
        currentStreak := currentStreak + 1;
        maxStreak := Common.Max(maxStreak, currentStreak);
      } else {
        currentStreak := 1;
      }
      i := i + 1;
    }
  }

  /** Rows `lo` to `hi - 1` of `s` form a streak: each is seven days after the
      one before. */
  predicate Chain(s: seq<int>, lo: int, hi: int) {
    0 <= lo < hi <= |s| && forall k :: lo < k < hi ==> s[k] - s[k - 1] == 7
  }

  /** A streak of two or more rows ends with a seven-day step. */
  lemma ChainLastStep(s: seq<int>, lo: int, hi: int)
    requires Chain(s, lo, hi)
    ensures lo < hi - 1 ==> s[hi - 1] - s[hi - 2] == 7
    ensures lo < hi - 1 ==> Chain(s, lo, hi - 1)
  {
  }

  /** `RunEndingAt` is the length of the longest streak ending at row
      `hi - 1`. */
  lemma {:induction false} RunEndingAtMeaning(s: seq<int>, hi: int)
    requires 0 < hi <= |s|
    ensures Chain(s, hi - RunEndingAt(s, hi - 1), hi)
    ensures forall lo :: Chain(s, lo, hi) ==> hi - lo <= RunEndingAt(s, hi - 1)
  {
    var i := hi - 1;
    if i > 0 && s[i] - s[i - 1] == 7 {
      RunEndingAtMeaning(s, i);
    }
    forall lo | Chain(s, lo, hi) ensures hi - lo <= RunEndingAt(s, i) {
      ChainLastStep(s, lo, hi);
    }
  }

  /** `MaxRun` is the length of the longest streak among the first `n` rows. */
  lemma {:induction false} MaxRunMeaning(s: seq<int>, n: int)
    requires 1 <= n <= |s|
    ensures exists lo, hi :: Chain(s, lo, hi) && hi <= n && hi - lo == MaxRun(s, n)
    ensures forall lo, hi :: Chain(s, lo, hi) && hi <= n ==> hi - lo <= MaxRun(s, n)
  {
    RunEndingAtMeaning(s, n);
    if n == 1 {
      assert Chain(s, 0, 1);
      forall lo, hi | Chain(s, lo, hi) && hi <= n ensures hi - lo <= MaxRun(s, n) {
      }
    } else {
      MaxRunMeaning(s, n - 1);
      if RunEndingAt(s, n - 1) > MaxRun(s, n - 1) {
        assert Chain(s, n - RunEndingAt(s, n - 1), n);
      }
      forall lo, hi | Chain(s, lo, hi) && hi <= n ensures hi - lo <= MaxRun(s, n) {
        if hi == n {
          assert hi - lo <= RunEndingAt(s, n - 1);
        } else {
          assert hi - lo <= MaxRun(s, n - 1);
        }
      }
    }
  }

  /** For rows sorted oldest first, the longest streak is the length of the
      longest run of rows each exactly seven days after the one before: such
      a run exists and no run is longer. */
  lemma LongestStreakMeaning(weeks: seq<int>)
    requires weeks != []
    ensures 1 <= LongestStreak(weeks) <= |weeks|
    ensures exists lo, hi :: Chain(SortAscending(weeks), lo, hi) && hi - lo == LongestStreak(weeks)
    ensures forall lo, hi :: Chain(SortAscending(weeks), lo, hi) ==> hi - lo <= LongestStreak(weeks)
  {
    var s := SortAscending(weeks);
    MaxRunMeaning(s, |s|);
  }

  lemma LongestStreakEmpty()
    ensures LongestStreak([]) == 0
  {
  }

  /** Every element of `s` times `unit`: `week_start` dates as the
      millisecond timestamps `new Date(week_start).getTime()` gives. */
  function Scale(s: seq<int>, unit: int): (r: seq<int>)
    ensures |r| == |s|
    ensures forall i :: 0 <= i < |s| ==> r[i] == s[i] * unit
  {
    if s == [] then [] else [s[0] * unit] + Scale(s[1..], unit)
  }

  /** `getWeekStart(new Date())` as written: the date moves back to Monday
      but keeps the time of day of `nowMs`. */
  function GetWeekStartMs(nowMs: int): (r: int)
    ensures r % MsPerDay == nowMs % MsPerDay
  {
    var day := DayOf(nowMs);
    nowMs + (GetWeekStart(day) - day) * MsPerDay
  }

  /** `calculateCurrentStreak` as written, on millisecond timestamps: rows are
      midnights, while the Monday it compares them with keeps the current time
      of day. */
  function CurrentStreakAsWritten(weeks: seq<int>, nowMs: int): nat {
    CurrentRun(Scale(SortDescending(weeks), MsPerDay), GetWeekStartMs(nowMs), 7 * MsPerDay)
  }

  lemma MultipleOfDay(x: int)
    ensures (x * MsPerDay) % MsPerDay == 0
  {
  }

  /** As written, a request made at any moment other than exactly midnight
      reports a current streak of 0, whatever the rows. */
  lemma AsWrittenZeroOffMidnight(weeks: seq<int>, nowMs: int)
    requires nowMs % MsPerDay != 0
    ensures CurrentStreakAsWritten(weeks, nowMs) == 0
  {
    var s := Scale(SortDescending(weeks), MsPerDay);
    var c := GetWeekStartMs(nowMs);
    if s != [] {
      MultipleOfDay(SortDescending(weeks)[0]);
      WeekBackKeepsTime(c);
    }
  }

  lemma WeekBackKeepsTime(c: int)
    ensures (c - 7 * MsPerDay) % MsPerDay == c % MsPerDay
  {
  }

  /** A row for this very week, requested at 01:00 on its Monday: the
      corrected model counts it, the code as written does not. */
  lemma AsWrittenMissesThisWeek()
    ensures CurrentStreak([19723], 19723) == 1
    ensures CurrentStreakAsWritten([19723], 19723 * MsPerDay + MsPerHour) == 0
  {
    assert Weekday(19723) == 1;
    assert SortDescending([19723]) == [19723] by {
      var r := SortDescending([19723]);
      assert multiset(r) == multiset{19723};
      assert |r| == 1 && r[0] in multiset(r);
    }
    AsWrittenZeroOffMidnight([19723], 19723 * MsPerDay + MsPerHour);
  }

  /** Multiplying by the length of a day keeps equality, order and a week's step. */
  lemma DayScaled(x: int, y: int)
    ensures x * MsPerDay == y * MsPerDay <==> x == y
    ensures x * MsPerDay < y * MsPerDay <==> x < y
    ensures (x - 7) * MsPerDay == x * MsPerDay - 7 * MsPerDay
  {
  }

  lemma {:induction false} RunFromScaled(s: seq<int>, c: int)
    ensures RunFrom(Scale(s, MsPerDay), c * MsPerDay, 7 * MsPerDay) == RunFrom(s, c, 7)
  {
    if s != [] {
      assert Scale(s, MsPerDay)[1..] == Scale(s[1..], MsPerDay);
      DayScaled(c, c);
      DayScaled(s[0], c);
      RunFromScaled(s[1..], c - 7);
    }
  }

  lemma CurrentRunScaled(s: seq<int>, c: int)
    ensures CurrentRun(Scale(s, MsPerDay), c * MsPerDay, 7 * MsPerDay) == CurrentRun(s, c, 7)
  {
    if s != [] {
      DayScaled(c, c);
      DayScaled(s[0], c);
      DayScaled(s[0], c - 7);
      RunFromScaled(s, c);
      RunFromScaled(s, c - 7);
    }
  }

  /** At midnight the Monday as written is that Monday's midnight. */
  lemma WeekStartMsAtMidnight(nowMs: int)
    requires nowMs % MsPerDay == 0
    ensures GetWeekStartMs(nowMs) == GetWeekStart(nowMs / MsPerDay) * MsPerDay
  {
    var day := nowMs / MsPerDay;
    assert nowMs == day * MsPerDay;
    assert DayOf(nowMs) == day;
    var c := GetWeekStart(day);
    assert (c - day) * MsPerDay == c * MsPerDay - day * MsPerDay;
  }

  /** At exactly midnight the code as written agrees with the day-number
      model, which is what it evidently means. */
  lemma AsWrittenAtMidnight(weeks: seq<int>, nowMs: int)
    requires nowMs % MsPerDay == 0
    ensures CurrentStreakAsWritten(weeks, nowMs) == CurrentStreak(weeks, nowMs / MsPerDay)
  {
    WeekStartMsAtMidnight(nowMs);
    CurrentRunScaled(SortDescending(weeks), GetWeekStart(nowMs / MsPerDay));
  }

  /** The body of the `GET` response. */
  datatype StreakReport = StreakReport(currentStreak: nat, longestStreak: nat, totalActiveWeeks: nat)

  /** `GET`: `weeks` are the `week_start` days of the user's rows with
      `has_activity` true, as the query returns them. */
  method Get(weeks: seq<int>, today: int) returns (r: StreakReport)
    ensures r.currentStreak == CurrentStreak(weeks, today)
    ensures r.longestStreak == LongestStreak(weeks)
    ensures r.totalActiveWeeks == |weeks|
  {
    var current := CalculateCurrentStreak(weeks, today);
    var longest := CalculateLongestStreak(weeks);
    r := StreakReport(current, longest, |weeks|);
  }
}
