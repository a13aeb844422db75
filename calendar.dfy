/** Proleptic Gregorian dates as JavaScript's `Date` sees them in one fixed
    time zone: a day number counts days from 1970-01-01, months run from 0
    (January) to 11 (December) and weekdays from 0 (Sunday) to 6 (Saturday). */
module Calendar {
  import opened Common

  const MsPerMinute: int := 60000
  const MsPerHour: int := 3600000
  const MsPerDay: int := 86400000

  /** `getDay()`: 1970-01-01 was a Thursday. */
  function Weekday(day: int): (wd: int)
    ensures 0 <= wd < 7
  {
    (day + 4) % 7
  }

  /** The day number of an instant given in milliseconds. */
  function DayOf(ms: int): int {
    FloorDiv(ms, MsPerDay)
  }

  /** `getHours()` of an instant given in milliseconds. */
  function HourOf(ms: int): (h: int)
    ensures 0 <= h < 24
  {
    (ms % MsPerDay) / MsPerHour
  }

  predicate IsLeapYear(y: int) {
    y % 4 == 0 && (y % 100 != 0 || y % 400 == 0)
  }

  function DaysInMonth(y: int, m: int): (n: int)
    requires 0 <= m < 12
    ensures 28 <= n <= 31
  {
    if m == 1 then (if IsLeapYear(y) then 29 else 28)
    else if m == 3 || m == 5 || m == 8 || m == 10 then 30
    else 31
  }

  datatype CivilDate = CivilDate(year: int, month: int, day: int)

  predicate Valid(d: CivilDate) {
    0 <= d.month < 12 && 1 <= d.day <= DaysInMonth(d.year, d.month)
  }

  /** `new Date(y, mo, d)` read back with `getFullYear`, `getMonth` and
      `getDate`: a month outside 0..11 carries into the year, and a day
      outside the month carries into the neighbouring months. */
  function MakeDate(y: int, mo: int, d: int): (r: CivilDate)
    ensures Valid(r)
    decreases if d < 1 then 1 - d else 0, if d > 0 then d else 0
  {
    var year := y + FloorDiv(mo, 12);
    var month := mo % 12;
    if d < 1 then
      var p := if month == 0 then CivilDate(year - 1, 11, 0) else CivilDate(year, month - 1, 0);
      MakeDate(p.year, p.month, d + DaysInMonth(p.year, p.month))
    else if d > DaysInMonth(year, month) then
      MakeDate(year, month + 1, d - DaysInMonth(year, month))
    else
      CivilDate(year, month, d)
  }

  /** `monthNumDays`: `new Date(y, m + 1, 0).getDate()`, the day before the
      first of the next month. */
  function MonthNumDays(y: int, m: int): (n: int)
    requires 0 <= m < 12
    ensures n == DaysInMonth(y, m)
  {
    assert FloorDiv(m, 12) == 0 && m % 12 == m;
    assert MakeDate(y, m, DaysInMonth(y, m)) == CivilDate(y, m, DaysInMonth(y, m));
    assert FloorDiv(m + 1, 12) == (if m == 11 then 1 else 0);
    assert (m + 1) % 12 == (if m == 11 then 0 else m + 1);
    MakeDate(y, m + 1, 0).day
  }

  /** Number of leap years among the years before `y` (counted from year 0,
      so only differences are meaningful). */
  function LeapYearsBefore(y: int): int {
    (y - 1) / 4 - (y - 1) / 100 + (y - 1) / 400
  }

  function DaysBeforeMonth(y: int, m: int): int
    requires 0 <= m <= 12
  {
    if m == 0 then 0 else DaysBeforeMonth(y, m - 1) + DaysInMonth(y, m - 1)
  }

  /** The day number of a calendar date. */
  function DayNumber(d: CivilDate): int
    requires 0 <= d.month < 12
  {
    365 * (d.year - 1970) + LeapYearsBefore(d.year) - LeapYearsBefore(1970)
    + DaysBeforeMonth(d.year, d.month) + d.day - 1
  }

  lemma Div4Step(a: int)
    ensures (a + 1) / 4 == a / 4 + (if (a + 1) % 4 == 0 then 1 else 0)
  {
  }

  lemma Div100Step(a: int)
    ensures (a + 1) / 100 == a / 100 + (if (a + 1) % 100 == 0 then 1 else 0)
  {
  }

  lemma Div400Step(a: int)
    ensures (a + 1) / 400 == a / 400 + (if (a + 1) % 400 == 0 then 1 else 0)
  {
  }

  lemma LeapYearStep(y: int)
    ensures LeapYearsBefore(y + 1) == LeapYearsBefore(y) + (if IsLeapYear(y) then 1 else 0)
  {
    Div4Step(y - 1);
    Div100Step(y - 1);
    Div400Step(y - 1);
    DivisibilityChain(y);
  }

  lemma DivisibilityChain(y: int)
    ensures y % 100 == 0 ==> y % 4 == 0
    ensures y % 400 == 0 ==> y % 100 == 0
  {
    if y % 100 == 0 {
      var q := y / 100;
      assert y == 4 * (25 * q);
    }
    if y % 400 == 0 {
      var q := y / 400;
      assert y == 100 * (4 * q);
    }
  }

  /** The last day of a month is followed by the first of the next one. */
  lemma {:induction false} NextMonthFollows(y: int, m: int)
    requires 0 <= m < 12
    ensures DayNumber(CivilDate(y, m, DaysInMonth(y, m))) + 1
            == DayNumber(if m == 11 then CivilDate(y + 1, 0, 1) else CivilDate(y, m + 1, 1))
  {
    if m == 11 {
      LeapYearStep(y);
      YearLength(y);
    }
  }

  lemma YearLength(y: int)
    ensures DaysBeforeMonth(y, 12) == 365 + (if IsLeapYear(y) then 1 else 0)
  {
    var f := if IsLeapYear(y) then 29 else 28;
    assert DaysBeforeMonth(y, 1) == 31;
    assert DaysBeforeMonth(y, 2) == 31 + f;
    assert DaysBeforeMonth(y, 3) == 62 + f;
    assert DaysBeforeMonth(y, 4) == 92 + f;
    assert DaysBeforeMonth(y, 5) == 123 + f;
    assert DaysBeforeMonth(y, 6) == 153 + f;
    assert DaysBeforeMonth(y, 7) == 184 + f;
    assert DaysBeforeMonth(y, 8) == 215 + f;
    assert DaysBeforeMonth(y, 9) == 245 + f;
    assert DaysBeforeMonth(y, 10) == 276 + f;
    assert DaysBeforeMonth(y, 11) == 306 + f;
  }

  /** `monthStartWeekday`: the weekday of the first of the month. */
  function MonthStartWeekday(y: int, m: int): (wd: int)
    requires 0 <= m < 12
    ensures 0 <= wd < 7
  {
    Weekday(DayNumber(CivilDate(y, m, 1)))
  }

  /** Each month starts as many weekdays later than the previous one as that
      month has days. */
  lemma MonthStartWeekdayStep(y: int, m: int)
    requires 0 <= m < 12
    ensures (if m == 11 then MonthStartWeekday(y + 1, 0) else MonthStartWeekday(y, m + 1))
            == (MonthStartWeekday(y, m) + DaysInMonth(y, m)) % 7
  {
    NextMonthFollows(y, m);
    var first := DayNumber(CivilDate(y, m, 1));
    assert DayNumber(CivilDate(y, m, DaysInMonth(y, m))) == first + DaysInMonth(y, m) - 1;
    WeekdayShift(first, DaysInMonth(y, m));
  }

  lemma WeekdayShift(day: int, k: int)
    ensures Weekday(day + k) == (Weekday(day) + k) % 7
  {
  }

  lemma EpochIsThursday()
    ensures DayNumber(CivilDate(1970, 0, 1)) == 0
    ensures MonthStartWeekday(1970, 0) == 4
  {
  }

  /** 2024-01-01 was a Monday and 2024 was a leap year: March 2024 started on
      a Friday. */
  lemma Year2024()
    ensures DayNumber(CivilDate(2024, 0, 1)) == 19723
    ensures MonthStartWeekday(2024, 0) == 1
    ensures MonthNumDays(2024, 1) == 29
    ensures MonthStartWeekday(2024, 2) == 5
  {
    assert DaysBeforeMonth(2024, 2) == 60;
  }

  /** The calendar column shown for `DAY_NAMES[index]` when the week starts on
      `startWeekday`: `(index - startWeekday + 7) % 7`. */
  function CalculatedIndex(index: int, startWeekday: int): (c: int)
    requires 0 <= index < 7 && 0 <= startWeekday < 7
    ensures 0 <= c < 7
    ensures c == 0 <==> index == startWeekday
    ensures (c + startWeekday) % 7 == index
  {
    JsRem(index - startWeekday + 7, 7)
  }

  /** Distinct weekdays get distinct columns, so the seven names fill the seven
      columns exactly once. */
  lemma CalculatedIndexBijective(startWeekday: int)
    requires 0 <= startWeekday < 7
    ensures forall i, j :: 0 <= i < 7 && 0 <= j < 7 && i != j
              ==> CalculatedIndex(i, startWeekday) != CalculatedIndex(j, startWeekday)
    ensures forall c :: 0 <= c < 7 ==> CalculatedIndex(DayNameAt(c, startWeekday), startWeekday) == c
  {
  }

  /** The position in `DAY_NAMES` of the weekday shown in column `c`. */
  function DayNameAt(c: int, startWeekday: int): (index: int)
    requires 0 <= c < 7 && 0 <= startWeekday < 7
    ensures 0 <= index < 7
  {
    (c + startWeekday) % 7
  }
}
