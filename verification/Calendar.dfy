/**
  Host date-times of crates/common/src/lib.rs and the weekday of
  crates/automation/src/config.rs. The calendar loops count years and months;
  the weekday is a closed form. They are proved to agree.
 */
module Calendar {
  const EPOCH_YEAR: nat := 1970
  const SECONDS_PER_DAY: nat := 86_400

  /** The first second after the year 65535, where the 16-bit year would wrap. */
  const END_DAYS: nat := 23_217_004
  const END_SECONDS: nat := END_DAYS * SECONDS_PER_DAY

  type Byte = n: nat | n < 0x100
  type Year = n: nat | n < 0x1_0000
  type Seconds = n: nat | n < 0x1_0000_0000_0000_0000

  datatype HostDateTime = HostDateTime(
    year: Year, month: Byte, day: Byte, dayOfWeek: Byte, hour: Byte, minute: Byte, second: Byte)
  {
    /** A date of the Gregorian calendar and a time of day; the weekday is a separate matter. */
    predicate Valid() {
      && 1 <= month <= 12 && 1 <= day <= DaysInMonth(year, month)
      && hour < 24 && minute < 60 && second < 60
    }

    function TimeOfDay(): nat {
      hour * 3_600 + minute * 60 + second
    }
  }

  predicate IsLeapYear(year: nat) {
    year % 4 == 0 && (year % 100 != 0 || year % 400 == 0)
  }

  function DaysInMonth(year: nat, month: nat): (days: nat)
    ensures 28 <= days <= 31
  {
    if month == 2 && IsLeapYear(year) then 29
    else if month == 2 then 28
    else if month == 4 || month == 6 || month == 9 || month == 11 then 30
    else 31
  }

  function DaysInYear(year: nat): nat {
    if IsLeapYear(year) then 366 else 365
  }

  /** Days from 1970-01-01 up to the first day of `year`. */
  function DaysBeforeYear(year: nat): nat {
    if year <= EPOCH_YEAR then 0 else DaysBeforeYear(year - 1) + DaysInYear(year - 1)
  }

  /** Days of `year` ahead of the first day of `month`. */
  function DaysBeforeMonth(year: nat, month: nat): nat {
    if month <= 1 then 0 else DaysBeforeMonth(year, month - 1) + DaysInMonth(year, month - 1)
  }

  /** The days since 1970-01-01, as counted year by year and month by month. */
  function DayNumber(year: nat, month: nat, day: nat): nat {
    DaysBeforeYear(year) + DaysBeforeMonth(year, month) + if day > 0 then day - 1 else 0
  }

  function ToUnix(d: HostDateTime): nat {
    DayNumber(d.year, d.month, d.day) * SECONDS_PER_DAY + d.TimeOfDay()
  }

  /** The year `remaining` days after the first day of `year`, counting with a 16-bit year. */
  function YearAt(remaining: nat, year: Year): (Year, nat) {
    if remaining < DaysInYear(year) then (year, remaining)
    else YearAt(remaining - DaysInYear(year), (year + 1) % 0x1_0000)
  }

  /** The month `remaining` days after the first day of `month`. */
  function MonthAt(remaining: nat, year: nat, month: nat): (nat, nat) {
    if remaining < DaysInMonth(year, month) then (month, remaining)
    else MonthAt(remaining - DaysInMonth(year, month), year, month + 1)
  }

  function FromUnix(seconds: nat): HostDateTime {
    var (days, time) := (seconds / SECONDS_PER_DAY, seconds % SECONDS_PER_DAY);
    var (year, dayOfYear) := YearAt(days, EPOCH_YEAR);
    var (month, dayIndex) := MonthAt(dayOfYear, year, 1);
    DateAt(year, month, dayIndex, days, time)
  }

  function DateAt(year: Year, month: nat, dayIndex: nat, days: nat, time: nat): HostDateTime
    requires time < SECONDS_PER_DAY
  {
    HostDateTime(
      year, month % 0x100, (dayIndex + 1) % 0x100, (days + 4) % 7, time / 3_600, time % 3_600 / 60, time % 60)
  }

  // ------------------------------------------------------------------
  // The loops
  // ------------------------------------------------------------------

  /** Seconds since 1970 to a date: the month loop never leaves the twelve months. */
  method FromUnixSeconds(seconds: Seconds) returns (d: HostDateTime)
    ensures d == FromUnix(seconds) && d.Valid()
  {
    hide FromUnix, DaysInMonth, IsLeapYear, HostDateTime.Valid, DateAt;
    var days := seconds / SECONDS_PER_DAY;
    var timeOfDay := seconds % SECONDS_PER_DAY;
    var year: Year := 1970;
    var remaining: nat := days;
    while true
      invariant YearAt(remaining, year) == YearAt(days, EPOCH_YEAR)
      decreases remaining
    {
      var yearDays := if IsLeapYear(year) then 366 else 365;
      if remaining < yearDays {
        break;
      }
      remaining := remaining - yearDays;
      year := (year + 1) % 0x1_0000;
    }
    ghost var dayOfYear := remaining;
    var month: Byte := 1;
    YearHasTwelveMonths(year);
    while true
      invariant 1 <= month <= 12 && DaysBeforeMonth(year, month) + remaining == dayOfYear
      invariant MonthAt(remaining, year, month) == MonthAt(dayOfYear, year, 1)
      decreases remaining
    {
      var monthDays := DaysInMonth(year, month);
      if remaining < monthDays {
        break;
      }
      remaining := remaining - monthDays;
      month := month + 1;
    }
    FoundDate(seconds, year, dayOfYear, month, remaining);
    DateIs(year, month, remaining, days, timeOfDay);
    d := HostDateTime(
      year, month, remaining + 1, (days + 4) % 7, timeOfDay / 3_600, timeOfDay % 3_600 / 60, timeOfDay % 60);
  }

  lemma FoundDate(seconds: nat, year: Year, dayOfYear: nat, month: nat, dayIndex: nat)
    requires YearAt(seconds / SECONDS_PER_DAY, EPOCH_YEAR) == (year, dayOfYear)
    requires MonthAt(dayOfYear, year, 1) == (month, dayIndex)
    requires 1 <= month <= 12 && dayIndex < DaysInMonth(year, month)
    ensures dayIndex < 31
    ensures FromUnix(seconds)
         == DateAt(year, month, dayIndex, seconds / SECONDS_PER_DAY, seconds % SECONDS_PER_DAY)
    ensures FromUnix(seconds).Valid()
  {
    hide YearAt, MonthAt;
    TimeInRange(seconds % SECONDS_PER_DAY);
  }

  lemma DateIs(year: Year, month: nat, dayIndex: nat, days: nat, time: nat)
    requires month < 0x100 && dayIndex < 0xFF && time < SECONDS_PER_DAY
    ensures time / 3_600 < 24 && time % 3_600 / 60 < 60
    ensures DateAt(year, month, dayIndex, days, time)
         == HostDateTime(
              year, month, dayIndex + 1, (days + 4) % 7, time / 3_600, time % 3_600 / 60, time % 60)
  {
    TimeInRange(time);
  }

  lemma TimeInRange(time: nat)
    requires time < SECONDS_PER_DAY
    ensures time / 3_600 < 24 && time % 3_600 / 60 < 60
    ensures time / 3_600 * 3_600 + time % 3_600 / 60 * 60 + time % 60 == time
  {
  }

  /** A date to seconds since 1970; a year before 1970 counts as 1970. */
  method ToUnixSeconds(d: HostDateTime) returns (seconds: nat)
    ensures seconds == ToUnix(d)
  {
    var days := 0;
    var year := 1970;
    while year < d.year
      invariant 1970 <= year && (year <= d.year || year == 1970)
      invariant days == DaysBeforeYear(year)
    {
      days := days + if IsLeapYear(year) then 366 else 365;
      year := year + 1;
    }
    YearsBeforeEpoch(d.year);
    var month := 1;
    while month < d.month
      invariant 1 <= month && (month <= d.month || month == 1)
      invariant days == DaysBeforeYear(d.year) + DaysBeforeMonth(d.year, month)
    {
      days := days + DaysInMonth(d.year, month);
      month := month + 1;
    }
    days := days + if d.day < 1 then 0 else d.day - 1;
    seconds := days * 86_400 + d.hour * 3_600 + d.minute * 60 + d.second;
  }

  lemma YearsBeforeEpoch(year: nat)
    ensures year <= 1970 ==> DaysBeforeYear(year) == DaysBeforeYear(1970) == 0
  {
  }

  // ------------------------------------------------------------------
  // Years and months in closed form
  // ------------------------------------------------------------------

  function LeapDays(year: nat): nat {
    year / 4 - year / 100 + year / 400
  }

  lemma LeapDaysGrow(year: nat)
    requires year > 0
    ensures LeapDays(year) == LeapDays(year - 1) + if IsLeapYear(year) then 1 else 0
  {
    QuotientStep(year, 4);
    QuotientStep(year, 100);
    QuotientStep(year, 400);
    if year % 100 == 0 {
      MultipleOfMultiple(year, 4, 25);
    }
    if year % 400 == 0 {
      MultipleOfMultiple(year, 100, 4);
    }
  }

  lemma MultipleOfMultiple(year: nat, n: nat, k: nat)
    requires (n == 4 && k == 25) || (n == 100 && k == 4)
    requires year % (n * k) == 0
    ensures year % n == 0
  {
    var q := year / (n * k);
    if n == 4 {
      assert year == 4 * (25 * q);
    } else {
      assert year == 100 * (4 * q);
    }
  }

  lemma QuotientStep(year: nat, n: nat)
    requires year > 0 && (n == 4 || n == 100 || n == 400)
    ensures year / n == (year - 1) / n + if year % n == 0 then 1 else 0
  {
  }

  lemma {:induction false} YearsInClosedForm(year: nat)
    requires year >= EPOCH_YEAR
    ensures DaysBeforeYear(year) == 365 * (year - EPOCH_YEAR) + LeapDays(year - 1) - 477
  {
    if year > EPOCH_YEAR {
      YearsInClosedForm(year - 1);
      LeapDaysGrow(year - 1);
    } else {
      assert LeapDays(1969) == 477;
    }
  }

  /** The month table: how many days of the year precede each month. */
  function MonthTable(month: nat): nat
    requires 1 <= month <= 13
  {
    [0, 31, 59, 90, 120, 151, 181, 212, 243, 273, 304, 334, 365][month - 1]
  }

  lemma {:induction false} MonthsInClosedForm(year: nat, month: nat)
    requires 1 <= month <= 13
    ensures DaysBeforeMonth(year, month) == MonthTable(month) + if month > 2 && IsLeapYear(year) then 1 else 0
  {
    if month > 1 {
      MonthsInClosedForm(year, month - 1);
    }
  }

  lemma YearHasTwelveMonths(year: nat)
    ensures DaysBeforeMonth(year, 12) + DaysInMonth(year, 12) == DaysInYear(year)
  {
    MonthsInClosedForm(year, 12);
  }

  // ------------------------------------------------------------------
  // Both directions agree
  // ------------------------------------------------------------------

  lemma YearFits(year: Year)
    requires year >= EPOCH_YEAR
    ensures DaysBeforeYear(year) + DaysInYear(year) <= END_DAYS
    ensures year == 0xFFFF ==> DaysBeforeYear(year) + DaysInYear(year) == END_DAYS
  {
    YearsInClosedForm(year);
    assert LeapDays(0xFFFE) == 15_891;
    LeapDaysMonotone(year - 1, 0xFFFE);
  }

  lemma {:induction false} LeapDaysMonotone(a: nat, b: nat)
    requires a <= b
    ensures LeapDays(a) <= LeapDays(b) && LeapDays(b) <= LeapDays(a) + (b - a)
    decreases b - a
  {
    if a < b {
      LeapDaysGrow(b);
      LeapDaysMonotone(a, b - 1);
    }
  }

  /** Inside the range of the 16-bit year, the year loop finds the year that holds the day. */
  lemma {:induction false} YearHolds(remaining: nat, year: Year)
    requires year >= EPOCH_YEAR && DaysBeforeYear(year) + remaining < END_DAYS
    ensures var (y, rest) := YearAt(remaining, year);
      y >= year && DaysBeforeYear(y) + rest == DaysBeforeYear(year) + remaining && rest < DaysInYear(y)
    decreases remaining
  {
    if remaining >= DaysInYear(year) {
      YearFits(year);
      YearHolds(remaining - DaysInYear(year), year + 1);
    }
  }

  lemma {:induction false} YearRest(remaining: nat, year: Year)
    ensures var (y, rest) := YearAt(remaining, year); rest < DaysInYear(y)
    decreases remaining
  {
    if remaining >= DaysInYear(year) {
      YearRest(remaining - DaysInYear(year), (year + 1) % 0x1_0000);
    }
  }

  lemma {:induction false} MonthHolds(remaining: nat, year: nat, month: nat)
    requires 1 <= month <= 12 && DaysBeforeMonth(year, month) + remaining < DaysInYear(year)
    ensures var (m, rest) := MonthAt(remaining, year, month);
      && month <= m <= 12 && rest < DaysInMonth(year, m)
      && DaysBeforeMonth(year, m) + rest == DaysBeforeMonth(year, month) + remaining
    decreases remaining
  {
    if remaining >= DaysInMonth(year, month) {
      if month == 12 {
        YearHasTwelveMonths(year);
      }
      MonthHolds(remaining - DaysInMonth(year, month), year, month + 1);
    }
  }

  lemma DayHolds(year: nat, dayOfYear: nat)
    requires dayOfYear < DaysInYear(year)
    ensures var (m, rest) := MonthAt(dayOfYear, year, 1);
      1 <= m <= 12 && rest < DaysInMonth(year, m) && DaysBeforeMonth(year, m) + rest == dayOfYear
  {
    MonthHolds(dayOfYear, year, 1);
  }

  /** Every second count maps to a calendar date, even past the range of the year. */
  lemma FromUnixValid(seconds: nat)
    ensures FromUnix(seconds).Valid()
  {
    hide YearAt, MonthAt;
    var (year, dayOfYear) := YearAt(seconds / SECONDS_PER_DAY, EPOCH_YEAR);
    YearRest(seconds / SECONDS_PER_DAY, EPOCH_YEAR);
    DayHolds(year, dayOfYear);
    var (month, dayIndex) := MonthAt(dayOfYear, year, 1);
    FoundDate(seconds, year, dayOfYear, month, dayIndex);
  }

  /** In range, the date found for a second count is the date of that second. */
  lemma FromUnixFinds(seconds: nat)
    requires seconds < END_SECONDS
    ensures FromUnix(seconds).year >= EPOCH_YEAR && ToUnix(FromUnix(seconds)) == seconds
  {
    hide YearAt, MonthAt, DaysBeforeYear, DaysBeforeMonth, ToUnix;
    var days := seconds / SECONDS_PER_DAY;
    YearsBeforeEpoch(EPOCH_YEAR);
    YearHolds(days, EPOCH_YEAR);
    var (year, dayOfYear) := YearAt(days, EPOCH_YEAR);
    DayHolds(year, dayOfYear);
    var (month, dayIndex) := MonthAt(dayOfYear, year, 1);
    FoundDate(seconds, year, dayOfYear, month, dayIndex);
    FoundSecond(seconds, year, month, dayIndex, days, seconds % SECONDS_PER_DAY);
  }

  lemma FoundSecond(seconds: nat, year: Year, month: nat, dayIndex: nat, days: nat, time: nat)
    requires 1 <= month <= 12 && dayIndex < 31 && time < SECONDS_PER_DAY
    requires seconds == days * SECONDS_PER_DAY + time
    requires days == DaysBeforeYear(year) + DaysBeforeMonth(year, month) + dayIndex
    ensures ToUnix(DateAt(year, month, dayIndex, days, time)) == seconds
  {
    hide DaysBeforeYear, DaysBeforeMonth;
    TimeInRange(time);
  }

  /** A calendar date never lies past the end of the range. */
  lemma ToUnixFits(d: HostDateTime)
    requires d.Valid()
    ensures ToUnix(d) < END_SECONDS
  {
    DayFits(d.year, d.month, d.day);
  }

  lemma DayFits(year: Year, month: nat, day: nat)
    requires 1 <= month <= 12 && 1 <= day <= DaysInMonth(year, month)
    ensures DayNumber(year, month, day) < END_DAYS
    ensures DayNumber(year, month, day) < DaysBeforeYear(year) + DaysInYear(year)
  {
    MonthsInClosedForm(year, month);
    MonthsInClosedForm(year, month + 1);
    if year >= EPOCH_YEAR {
      YearFits(year);
    }
  }

  /** Counting seconds to a date and back is the identity exactly while the year fits its 16 bits. */
  lemma SecondsRoundTrip(seconds: nat)
    ensures ToUnix(FromUnix(seconds)) == seconds <==> seconds < END_SECONDS
  {
    if seconds < END_SECONDS {
      FromUnixFinds(seconds);
    } else {
      FromUnixValid(seconds);
      ToUnixFits(FromUnix(seconds));
    }
  }

  // ------------------------------------------------------------------
  // Order
  // ------------------------------------------------------------------

  /** The order in which dates and times are read: year first, second last. */
  predicate Before(a: HostDateTime, b: HostDateTime) {
    if a.year != b.year then a.year < b.year
    else if a.month != b.month then a.month < b.month
    else if a.day != b.day then a.day < b.day
    else a.TimeOfDay() < b.TimeOfDay()
  }

  lemma {:induction false} YearsGrow(a: nat, b: nat)
    requires EPOCH_YEAR <= a < b
    ensures DaysBeforeYear(a) + DaysInYear(a) <= DaysBeforeYear(b)
    decreases b
  {
    if a + 1 < b {
      YearsGrow(a, b - 1);
    }
  }

  lemma {:induction false} MonthsGrow(year: nat, a: nat, b: nat)
    requires 1 <= a < b
    ensures DaysBeforeMonth(year, a) + DaysInMonth(year, a) <= DaysBeforeMonth(year, b)
    decreases b
  {
    if a + 1 < b {
      MonthsGrow(year, a, b - 1);
    }
  }

  lemma EarlierDay(a: HostDateTime, b: HostDateTime)
    requires a.Valid() && b.Valid() && a.year >= EPOCH_YEAR && Before(a, b)
    ensures DayNumber(a.year, a.month, a.day) < DayNumber(b.year, b.month, b.day)
      || (a.year == b.year && a.month == b.month && a.day == b.day)
  {
    hide DaysInMonth, DaysInYear, DaysBeforeYear, DaysBeforeMonth;
    if a.year < b.year {
      YearsGrow(a.year, b.year);
      DayFits(a.year, a.month, a.day);
    } else if a.year == b.year && a.month < b.month {
      MonthsGrow(a.year, a.month, b.month);
    }
  }

  lemma EarlierFirst(a: HostDateTime, b: HostDateTime)
    requires a.Valid() && b.Valid() && a.year >= EPOCH_YEAR && Before(a, b)
    ensures ToUnix(a) < ToUnix(b)
  {
    EarlierDay(a, b);
    assert a.TimeOfDay() < SECONDS_PER_DAY;
  }

  /** Seconds order dates exactly as the calendar reads. */
  lemma OrderAgrees(a: HostDateTime, b: HostDateTime)
    requires a.Valid() && b.Valid() && a.year >= EPOCH_YEAR && b.year >= EPOCH_YEAR
    ensures ToUnix(a) < ToUnix(b) <==> Before(a, b)
  {
    if Before(a, b) {
      EarlierFirst(a, b);
    } else if Before(b, a) {
      EarlierFirst(b, a);
    } else {
      assert a.year == b.year && a.month == b.month && a.day == b.day;
    }
  }

  /** A date of the range, with its weekday, is the date of its own second. */
  lemma DateRoundTrip(d: HostDateTime)
    requires d.Valid() && d.year >= EPOCH_YEAR
    ensures FromUnix(ToUnix(d)) == d.(dayOfWeek := (DayNumber(d.year, d.month, d.day) + 4) % 7)
  {
    hide FromUnix;
    var seconds := ToUnix(d);
    var e := FromUnix(seconds);
    ToUnixFits(d);
    FromUnixFinds(seconds);
    FromUnixValid(seconds);
    OrderAgrees(d, e);
    OrderAgrees(e, d);
    assert d.year == e.year && d.month == e.month && d.day == e.day && d.TimeOfDay() == e.TimeOfDay();
    SameTime(d, e);
    WeekdayOf(seconds, d);
  }

  lemma SameTime(d: HostDateTime, e: HostDateTime)
    requires d.Valid() && e.Valid() && d.TimeOfDay() == e.TimeOfDay()
    ensures d.hour == e.hour && d.minute == e.minute && d.second == e.second
  {
  }

  lemma WeekdayOf(seconds: nat, d: HostDateTime)
    requires seconds == ToUnix(d) && d.Valid()
    ensures FromUnix(seconds).dayOfWeek == (DayNumber(d.year, d.month, d.day) + 4) % 7
  {
    hide YearAt, MonthAt;
    assert seconds / SECONDS_PER_DAY == DayNumber(d.year, d.month, d.day);
  }

  // ------------------------------------------------------------------
  // The weekday in closed form
  // ------------------------------------------------------------------

  /** Division that truncates towards zero. */
  function TruncatedDiv(a: int, b: nat): int
    requires b > 0
  {
    if a < 0 then -(-a / b) else a / b
  }

  function SakamotoSum(year: Year, month: nat, day: nat): int
    requires 1 <= month <= 12
  {
    var offsets := [0, 3, 2, 5, 0, 3, 5, 1, 4, 6, 2, 4];
    var adjusted: int := if month < 3 then year - 1 else year;
    adjusted + TruncatedDiv(adjusted, 4) - TruncatedDiv(adjusted, 100) + TruncatedDiv(adjusted, 400)
    + offsets[month - 1] + day
  }

  /** Sakamoto's method; Sunday is 0. */
  function DayOfWeek(year: Year, month: nat, day: nat): (w: Byte)
    requires 1 <= month <= 12
    ensures w < 7
  {
    SakamotoSum(year, month, day) % 7
  }

  /** The closed form is the weekday that the loops count, four days after a Sunday in 1970. */
  lemma WeekdayAgrees(year: Year, month: nat, day: nat)
    requires year >= EPOCH_YEAR && 1 <= month <= 12 && day >= 1
    ensures DayOfWeek(year, month, day) == (DayNumber(year, month, day) + 4) % 7
  {
    YearsInClosedForm(year);
    MonthsInClosedForm(year, month);
    LeapDaysGrow(year);
    WeekdaySum(year, month, day, LeapDays(year - 1), if IsLeapYear(year) then 1 else 0);
    WholeWeeks(
      DayNumber(year, month, day) + 4, SakamotoSum(year, month, day), 52 * (year - EPOCH_YEAR) + WeeksApart(month));
  }

  lemma WholeWeeks(a: int, b: int, weeks: int)
    requires a == b + 7 * weeks
    ensures a % 7 == b % 7
  {
  }

  /** How many weeks the two forms lie apart, for each month. */
  function WeeksApart(month: nat): int
    requires 1 <= month <= 12
  {
    [-349, -345, -341, -337, -332, -328, -324, -319, -315, -311, -306, -302][month - 1]
  }

  lemma WeekdaySum(year: nat, month: nat, day: nat, leaps: nat, leap: nat)
    requires 1 <= month <= 12
    ensures
      365 * (year - EPOCH_YEAR) + leaps - 477 + MonthTable(month) + (if month > 2 then leap else 0) + day - 1 + 4
      == (if month < 3 then year - 1 + leaps else year + leaps + leap)
         + [0, 3, 2, 5, 0, 3, 5, 1, 4, 6, 2, 4][month - 1] + day
         + 7 * (52 * (year - EPOCH_YEAR) + WeeksApart(month))
  {
  }
}
