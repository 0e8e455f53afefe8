/** The proleptic Gregorian calendar behind pandas' `.dt` accessors and Python's
    `datetime`: day numbers, weekdays, quarters, ISO 8601 week numbers, and the
    `YYYY-MM-DD` rendering of `strftime('%Y-%m-%d')`. */
module Calendar {

  import opened Base
  import Strings

  datatype Date = Date(year: int, month: int, day: int)

  predicate IsLeap(y: int)
  {
    y % 4 == 0 && (y % 100 != 0 || y % 400 == 0)
  }

  function DaysInYear(y: int): int
  {
    if IsLeap(y) then 366 else 365
  }

  function DaysInMonth(y: int, m: int): int
    requires 1 <= m <= 12
  {
    if m == 2 then (if IsLeap(y) then 29 else 28)
    else if m == 4 || m == 6 || m == 9 || m == 11 then 30
    else 31
  }

  /** A date Python's `datetime` can hold: years 1 through 9999. */
  predicate Valid(d: Date)
  {
    1 <= d.year <= 9999 && 1 <= d.month <= 12 && 1 <= d.day <= DaysInMonth(d.year, d.month)
  }

  type Day = d: Date | Valid(d) witness Date(1, 1, 1)

  /** Days of the year that precede the first of month `m`. */
  function DaysBeforeMonth(y: int, m: int): int
    requires 1 <= m <= 12
  {
    var table := [0, 31, 59, 90, 120, 151, 181, 212, 243, 273, 304, 334];
    table[m - 1] + (if m > 2 && IsLeap(y) then 1 else 0)
  }

  lemma DaysBeforeMonthStep(y: int, m: int)
    requires 1 <= m < 12
    ensures DaysBeforeMonth(y, m + 1) == DaysBeforeMonth(y, m) + DaysInMonth(y, m)
  {
  }

  /** 1 for January 1; at most 365 or 366. */
  function DayOfYear(d: Day): (r: int)
    ensures 1 <= r <= DaysInYear(d.year)
  {
    DaysBeforeMonth(d.year, d.month) + d.day
  }

  /** Days from 0001-01-01 to January 1 of year `y`. */
  function DaysBeforeYear(y: int): int
  {
    var p := y - 1;
    365 * p + p / 4 - p / 100 + p / 400
  }

  lemma YearStep(y: int)
    ensures DaysBeforeYear(y + 1) == DaysBeforeYear(y) + DaysInYear(y)
  {
    assert y / 4 - (y - 1) / 4 == (if y % 4 == 0 then 1 else 0);
    assert y / 100 - (y - 1) / 100 == (if y % 100 == 0 then 1 else 0);
    assert y / 400 - (y - 1) / 400 == (if y % 400 == 0 then 1 else 0);
  }

  /** Days since 0001-01-01 (day 0). */
  function DayNumber(d: Day): int
  {
    DaysBeforeYear(d.year) + DayOfYear(d) - 1
  }

  /** pandas `dt.weekday`: Monday is 0 and Sunday 6 (0001-01-01 was a Monday). */
  function Weekday(d: Day): int
  {
    DayNumber(d) % 7
  }

  const DayNames: seq<string> :=
    ["Monday", "Tuesday", "Wednesday", "Thursday", "Friday", "Saturday", "Sunday"]

  /** pandas `dt.day_name()`. */
  function DayName(d: Day): string
  {
    DayNames[Weekday(d)]
  }

  /** `(dt.weekday >= 5)` as 0/1: exactly the Saturdays and Sundays. */
  function IsWeekend(d: Day): (r: int)
    ensures r == 0 || r == 1
    ensures r == 1 <==> DayName(d) == "Saturday" || DayName(d) == "Sunday"
  {
    if Weekday(d) >= 5 then 1 else 0
  }

  /** pandas `dt.quarter`: quarter `q` holds months 3q-2 .. 3q. */
  function Quarter(d: Day): (q: int)
    ensures 1 <= q <= 4
    ensures 3 * q - 2 <= d.month <= 3 * q
  {
    (d.month - 1) / 3 + 1
  }

  // ---------------------------------------------------------------------------
  // ISO 8601 week numbers (week dates, section 4.1.4 of ISO 8601:2004).

  function Jan1Weekday(y: int): int
  {
    DaysBeforeYear(y) % 7
  }

  /** An ISO year has 53 weeks when it starts on a Thursday, or on a Wednesday in a leap year. */
  function WeeksInYear(y: int): int
  {
    var j := Jan1Weekday(y);
    if j == 3 || (IsLeap(y) && j == 2) then 53 else 52
  }

  /** `dt.isocalendar().week`, computed from the ordinal day and the weekday. */
  function IsoWeek(d: Day): (w: int)
    ensures 1 <= w <= 53
  {
    IsoWeekFrom(DayOfYear(d), Weekday(d), WeeksInYear(d.year - 1), WeeksInYear(d.year))
  }

  /** Estimate `(ordinal - isoWeekday + 10) / 7`, corrected into the neighbouring years. */
  function IsoWeekFrom(o: int, wd: int, weeksBefore: int, weeks: int): (w: int)
    requires 52 <= weeksBefore <= 53 && 52 <= weeks <= 53
    ensures 1 <= w <= 53
  {
    var w := (o - (wd + 1) + 10) / 7;
    if w < 1 then weeksBefore
    else if w > weeks then 1
    else w
  }

  /** The defining rule: an ISO week belongs to the year holding its Thursday, and
      week 1 is the week holding that year's first Thursday. */
  function IsoWeekByThursday(d: Day): int
  {
    ThursdayWeek(DayOfYear(d), Weekday(d), DaysInYear(d.year - 1), DaysInYear(d.year))
  }

  function ThursdayWeek(o: int, wd: int, daysBefore: int, days: int): int
  {
    var t := o - wd + 3;   // ordinal of this week's Thursday
    if t < 1 then (t + daysBefore - 1) / 7 + 1
    else if t > days then (t - days - 1) / 7 + 1
    else (t - 1) / 7 + 1
  }

  /** Adding to a number adds to its residue modulo 7. */
  lemma ModShift(a: int, b: int)
    ensures (a + b) % 7 == (a % 7 + b) % 7
  {
    var q := a / 7;
    assert a == 7 * q + a % 7;
    ModMultiple(q, a % 7 + b);
  }

  lemma ModMultiple(q: int, x: int)
    ensures (7 * q + x) % 7 == x % 7
  {
    var k := x / 7;
    assert x == 7 * k + x % 7;
    assert 7 * q + x == 7 * (q + k) + x % 7;
  }

  lemma WeekdayFromJan1(d: Day)
    ensures Weekday(d) == (Jan1Weekday(d.year) + DayOfYear(d) - 1) % 7
  {
    ModShift(DaysBeforeYear(d.year), DayOfYear(d) - 1);
  }

  lemma Jan1Step(y: int)
    ensures Jan1Weekday(y + 1) == (Jan1Weekday(y) + DaysInYear(y)) % 7
  {
    YearStep(y);
    ModShift(DaysBeforeYear(y), DaysInYear(y));
  }

  /** Week-count rule of `WeeksInYear`, on the weekday of January 1 and the leap flag. */
  function Weeks(j: int, leap: bool): int
  {
    if j == 3 || (leap && j == 2) then 53 else 52
  }

  /** A Thursday's ordinal `t` satisfies `(t + j) % 7 == 4` when January 1 falls on weekday `j`. */
  lemma ThursdayResidue(j: int, o: int, wd: int)
    requires wd == (j + o - 1) % 7
    ensures (o - wd + 3 + j) % 7 == 4
  {
    var q := (j + o - 1) / 7;
    assert o - wd + 3 + j == 7 * q + 4;
    ModMultiple(q, 4);
  }

  /** A Thursday inside its own year lies in week `Weeks(j, leap)` or earlier. */
  lemma ThursdayWithinYear(t: int, j: int, leap: bool)
    requires 0 <= j < 7 && 1 <= t <= (if leap then 366 else 365) && (t + j) % 7 == 4
    ensures (t + 6) / 7 <= Weeks(j, leap)
  {
    if t >= 365 {
      assert t == 365 ==> j == 3;
      assert t == 366 ==> j == 2;
    }
  }

  /** A Thursday in the first days after the year's end: the year has 52 weeks. */
  lemma ThursdayAfterYear(t: int, j: int, leap: bool)
    requires 0 <= j < 7
    requires (if leap then 366 else 365) < t <= (if leap then 366 else 365) + 3
    requires (t + j) % 7 == 4
    ensures Weeks(j, leap) == 52
  {
  }

  /** A Thursday in the last days of the previous year: its week is that year's last. */
  lemma ThursdayBeforeYear(t: int, j': int, leap': bool)
    requires 0 <= j' < 7
    requires (if leap' then 366 else 365) - 2 <= t <= (if leap' then 366 else 365)
    requires (t + j') % 7 == 4
    ensures (t - 1) / 7 + 1 == Weeks(j', leap')
  {
  }

  /** The week-number arithmetic, on plain integers: ordinal `o`, weekday `wd`, and the
      weekday of January 1 of this year (`j`) and of the previous one (`j'`). */
  lemma IsoWeekArithmetic(o: int, wd: int, j: int, leap: bool, j': int, leap': bool)
    requires 0 <= j' < 7 && 0 <= wd < 7
    requires 1 <= o <= (if leap then 366 else 365)
    requires wd == (j + o - 1) % 7
    requires j == (j' + (if leap' then 366 else 365)) % 7
    ensures IsoWeekFrom(o, wd, Weeks(j', leap'), Weeks(j, leap))
         == ThursdayWeek(o, wd, if leap' then 366 else 365, if leap then 366 else 365)
  {
    var n := if leap' then 366 else 365;
    ThursdayResidue(j, o, wd);
    var t := o - wd + 3;
    if t < 1 {
      assert (t + n + j') % 7 == 4 by {
        var k := (j' + n) / 7;
        assert t + n + j' == 7 * k + (t + j);
        ModMultiple(k, t + j);
      }
      ThursdayBeforeYear(t + n, j', leap');
    } else if t > (if leap then 366 else 365) {
      ThursdayAfterYear(t, j, leap);
    } else {
      ThursdayWithinYear(t, j, leap);
    }
  }

  /** The computed week number is the ISO 8601 week number. */
  lemma IsoWeekIsThursdayRule(d: Day)
    ensures IsoWeek(d) == IsoWeekByThursday(d)
  {
    var y := d.year;
    IsoWeekInputs(d);
    IsoWeekArithmetic(DayOfYear(d), Weekday(d), Jan1Weekday(y), IsLeap(y), Jan1Weekday(y - 1), IsLeap(y - 1));
  }

  /** What the week computation knows of a day: its weekday follows from January 1's, and
      January 1's from the previous one's. */
  lemma IsoWeekInputs(d: Day)
    ensures 0 <= Jan1Weekday(d.year - 1) < 7 && 0 <= Weekday(d) < 7
    ensures 1 <= DayOfYear(d) <= (if IsLeap(d.year) then 366 else 365)
    ensures Weekday(d) == (Jan1Weekday(d.year) + DayOfYear(d) - 1) % 7
    ensures Jan1Weekday(d.year) == (Jan1Weekday(d.year - 1) + (if IsLeap(d.year - 1) then 366 else 365)) % 7
  {
    WeekdayFromJan1(d);
    Jan1Step(d.year - 1);
    assert d.year - 1 + 1 == d.year;
  }

  // ---------------------------------------------------------------------------
  // Day arithmetic and the `YYYY-MM-DD` format.

  /** `d - timedelta(1)`; Python raises OverflowError below 0001-01-01. */
  function PrevDay(d: Day): (r: Result<Day>)
    ensures r.Ok? <==> d != Date(1, 1, 1)
    ensures r.Ok? ==> DayNumber(r.value) == DayNumber(d) - 1
  {
    if d.day > 1 then Ok(Date(d.year, d.month, d.day - 1))
    else if d.month > 1 then
      DaysBeforeMonthStep(d.year, d.month - 1);
      Ok(Date(d.year, d.month - 1, DaysInMonth(d.year, d.month - 1)))
    else if d.year > 1 then
      YearStep(d.year - 1);
      Ok(Date(d.year - 1, 12, 31))
    else Err(Overflow)
  }

  /** The previous day falls on the previous weekday. */
  lemma PrevDayWeekday(d: Day)
    requires d != Date(1, 1, 1)
    ensures Weekday(PrevDay(d).value) == (Weekday(d) + 6) % 7
  {
    var n := DayNumber(d);
    assert DayNumber(PrevDay(d).value) == n - 1;
    ModShift(n, 6);
    ModMultiple(-1, n + 6);
  }

  function Digits(n: nat, width: nat): (r: string)
    ensures |r| == width && Strings.IsDigits(r)
  {
    if width == 0 then [] else Digits(n / 10, width - 1) + [Strings.DigitChar(n % 10)]
  }

  function Power10(k: nat): nat
  {
    if k == 0 then 1 else 10 * Power10(k - 1)
  }

  lemma {:induction false} DigitsValue(n: nat, width: nat)
    requires n < Power10(width)
    ensures Strings.ParseDigits(Digits(n, width)) == n
  {
    if width > 0 {
      var s := Digits(n, width);
      assert s[..|s| - 1] == Digits(n / 10, width - 1);
      DigitsValue(n / 10, width - 1);
    }
  }

  /** `strftime('%Y-%m-%d')`: zero-padded four-digit year, two-digit month and day. */
  function FormatIso(d: Day): (s: string)
    ensures |s| == 10 && s[4] == '-' && s[7] == '-'
  {
    Digits(d.year, 4) + "-" + Digits(d.month, 2) + "-" + Digits(d.day, 2)
  }

  /** Reads back a `YYYY-MM-DD` string; `None` for anything that is not a valid date. */
  function ParseIso(s: string): Option<Day>
  {
    if |s| == 10 && s[4] == '-' && s[7] == '-'
       && Strings.IsDigits(s[..4]) && Strings.IsDigits(s[5..7]) && Strings.IsDigits(s[8..])
    then
      var d := Date(Strings.ParseDigits(s[..4]), Strings.ParseDigits(s[5..7]), Strings.ParseDigits(s[8..]));
      if Valid(d) then Some(d) else None
    else None
  }

  lemma FormatIsoRoundTrip(d: Day)
    ensures ParseIso(FormatIso(d)) == Some(d)
  {
    var s := FormatIso(d);
    assert s[..4] == Digits(d.year, 4);
    assert s[5..7] == Digits(d.month, 2);
    assert s[8..] == Digits(d.day, 2);
    DigitsValue(d.year, 4);
    DigitsValue(d.month, 2);
    DigitsValue(d.day, 2);
  }
}
