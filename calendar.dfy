/** The parts of Python's `datetime` the clock reads: the calendar fields,
    the time of day and `weekday()` (Monday is 0), computed as CPython does
    from the proleptic Gregorian day number. */
module Calendar {

  datatype DateTime = DateTime(year: int, month: int, day: int,
                               hour: int, minute: int, second: int, microsecond: int)

  predicate IsLeap(y: int) {
    y % 4 == 0 && (y % 100 != 0 || y % 400 == 0)
  }

  function DaysInMonth(y: int, m: int): (n: int)
    requires 1 <= m <= 12
    ensures 28 <= n <= 31
  {
    if m == 2 then (if IsLeap(y) then 29 else 28)
    else if m == 4 || m == 6 || m == 9 || m == 11 then 30
    else 31
  }

  /** The values a `datetime` can hold. */
  predicate Valid(d: DateTime) {
    && 1 <= d.year <= 9999
    && 1 <= d.month <= 12
    && 1 <= d.day <= DaysInMonth(d.year, d.month)
    && 0 <= d.hour < 24
    && 0 <= d.minute < 60
    && 0 <= d.second < 60
    && 0 <= d.microsecond < 1000000
  }

  const DaysBeforeMonthTable: seq<int> := [0, 31, 59, 90, 120, 151, 181, 212, 243, 273, 304, 334]

  function DaysBeforeYear(y: int): (r: int) {
    var p := y - 1;
    p * 365 + p / 4 - p / 100 + p / 400
  }

  function DaysBeforeMonth(y: int, m: int): (r: int)
    requires 1 <= m <= 12
  {
    DaysBeforeMonthTable[m - 1] + (if m > 2 && IsLeap(y) then 1 else 0)
  }

  /** `date.toordinal()`: day 1 is 1 January of year 1. */
  function Ordinal(d: DateTime): (r: int)
    requires Valid(d)
  {
    DaysBeforeYear(d.year) + DaysBeforeMonth(d.year, d.month) + d.day
  }

  /** `date.weekday()`: 0 is Monday, 6 is Sunday. Day 1 was a Monday. */
  function Weekday(d: DateTime): (w: int)
    requires Valid(d)
    ensures 0 <= w < 7
  {
    (Ordinal(d) + 6) % 7
  }

  /** Consecutive days of a month fall on consecutive weekdays. */
  lemma WeekdayNextDay(d: DateTime)
    requires Valid(d) && d.day < DaysInMonth(d.year, d.month)
    ensures Valid(d.(day := d.day + 1))
    ensures Weekday(d.(day := d.day + 1)) == (Weekday(d) + 1) % 7
  {
    var e := d.(day := d.day + 1);
    assert Ordinal(e) == Ordinal(d) + 1;
    ModSevenSucc(Ordinal(d) + 6);
  }

  lemma ModSevenSucc(o: int)
    ensures (o + 1) % 7 == (o % 7 + 1) % 7
  {
  }

  /** 10 August 2025 was a Sunday, at any time of the day. */
  lemma SampleDateIsSunday(d: DateTime)
    requires Valid(d) && d.year == 2025 && d.month == 8 && d.day == 10
    ensures Weekday(d) == 6
  {
    assert 2024 / 4 == 506 && 2024 / 100 == 20 && 2024 / 400 == 5;
    assert DaysBeforeYear(2025) == 739251;
    assert DaysBeforeMonth(2025, 8) == 212;
    assert Ordinal(d) == 739473;
  }
}
