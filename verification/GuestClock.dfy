/**
  The guest's real-time clock (crates/automation/src/guest_clock.rs) and the
  date-time a script starts it with (crates/automation/src/config.rs).
 */
module GuestClock {
  import opened Calendar
  import opened Wrappers

  const NANOSECONDS_PER_SECOND: nat := 1_000_000_000

  datatype GuestDateTime =
    GuestDateTime(year: Year, month: Byte, day: Byte, hour: Byte, minute: Byte, second: Byte)
  {
    predicate OnCalendar()
      requires 1 <= month <= 12
    {
      day <= DaysInMonth(year, month)
    }

    function ToHostDateTime(): HostDateTime
      requires 1 <= month <= 12
    {
      HostDateTime(year, month, day, DayOfWeek(year, month, day), hour, minute, second)
    }
  }

  datatype Parsed = Parsed(value: GuestDateTime) | OutOfRange

  /** The range checks on the six numeric fields; the day is not held against its month. */
  function Checked(year: Year, month: Year, day: Year, hour: Year, minute: Year, second: Year): (p: Parsed)
    ensures p.Parsed? <==>
      year >= 1970 && 1 <= month <= 12 && 1 <= day <= 31 && hour <= 23 && minute <= 59 && second <= 59
    ensures p.Parsed? ==> p.value.month == month && p.value.day == day && p.value.year == year
  {
    if year < EPOCH_YEAR || !(1 <= month <= 12) || !(1 <= day <= 31) || hour > 23 || minute > 59 || second > 59 then
      OutOfRange
    else
      Parsed(GuestDateTime(year, month, day, hour, minute, second))
  }

  predicate Accepted(g: GuestDateTime) {
    Checked(g.year, g.month, g.day, g.hour, g.minute, g.second) == Parsed(g)
  }

  function Clamped(nanoseconds: nat): (c: Seconds)
    ensures c <= nanoseconds
  {
    if nanoseconds > WORD_MAX then WORD_MAX else nanoseconds
  }

  /** The second a clock shows: its start plus the whole seconds of emulated time. */
  function SecondShown(start: nat, elapsed: nat): Seconds {
    SaturatingAdd(start, elapsed / NANOSECONDS_PER_SECOND)
  }

  class Clock {
    const startUnixSeconds: Seconds
    var elapsedNanoseconds: Seconds

    constructor (start: HostDateTime)
      ensures startUnixSeconds == ToUnix(start) && elapsedNanoseconds == 0
    {
      var seconds := ToUnixSeconds(start);
      SecondsFit(start);
      startUnixSeconds := seconds;
      elapsedNanoseconds := 0;
    }

    method SetElapsedNanoseconds(nanoseconds: nat)
      modifies this
      ensures elapsedNanoseconds == Clamped(nanoseconds)
    {
      elapsedNanoseconds := if nanoseconds > WORD_MAX then WORD_MAX else nanoseconds;
    }

    method Now() returns (d: HostDateTime)
      ensures d == FromUnix(SecondShown(startUnixSeconds, elapsedNanoseconds)) && d.Valid()
    {
      var elapsedSeconds := elapsedNanoseconds / NANOSECONDS_PER_SECOND;
      d := FromUnixSeconds(SaturatingAdd(startUnixSeconds, elapsedSeconds));
    }
  }

  /** The second count of any field values fits 64 bits. */
  lemma SecondsFit(d: HostDateTime)
    ensures ToUnix(d) <= WORD_MAX
  {
    YearsBounded(d.year);
    MonthsBounded(d.year, d.month);
  }

  lemma {:induction false} YearsBounded(year: nat)
    ensures DaysBeforeYear(year) <= 366 * year
  {
    if year > EPOCH_YEAR {
      YearsBounded(year - 1);
    }
  }

  lemma {:induction false} MonthsBounded(year: nat, month: nat)
    ensures DaysBeforeMonth(year, month) <= 31 * month
  {
    if month > 1 {
      MonthsBounded(year, month - 1);
    }
  }

  // ------------------------------------------------------------------
  // What the clock shows
  // ------------------------------------------------------------------

  /**
    A fresh clock shows the very date-time it was started with, weekday included, exactly when the
    day exists in its month. The range check lets other days pass, such as the 31st of February.
   */
  lemma FreshClockShowsStart(g: GuestDateTime)
    requires Accepted(g)
    ensures FromUnix(SecondShown(ToUnix(g.ToHostDateTime()), 0)) == g.ToHostDateTime() <==> g.OnCalendar()
  {
    hide FromUnix, ToUnix, DayOfWeek, DayNumber, SecondShown;
    var start := g.ToHostDateTime();
    SecondsFit(start);
    NothingElapsed(ToUnix(start));
    FromUnixValid(ToUnix(start));
    if g.OnCalendar() {
      DateRoundTrip(start);
      WeekdayAgrees(g.year, g.month, g.day);
    }
  }

  /** The instance named above: started on 31 February of a common year, the clock shows 3 March. */
  lemma ThirtyFirstOfFebruary(year: Year)
    requires year >= EPOCH_YEAR && !IsLeapYear(year)
    ensures var g := GuestDateTime(year, 2, 31, 0, 0, 0);
      && Accepted(g) && !g.OnCalendar()
      && FromUnix(SecondShown(ToUnix(g.ToHostDateTime()), 0))
         == GuestDateTime(year, 3, 3, 0, 0, 0).ToHostDateTime()
  {
    hide FromUnix, DayOfWeek, DayNumber, ToUnix, SecondShown;
    var start := GuestDateTime(year, 2, 31, 0, 0, 0).ToHostDateTime();
    var end := GuestDateTime(year, 3, 3, 0, 0, 0).ToHostDateTime();
    SecondsFit(start);
    SameSecond(year, start, end);
    NothingElapsed(ToUnix(start));
    DateRoundTrip(end);
    WeekdayAgrees(year, 3, 3);
  }

  lemma NothingElapsed(start: Seconds)
    ensures SecondShown(start, 0) == start
  {
  }

  lemma SameSecond(year: Year, a: HostDateTime, b: HostDateTime)
    requires !IsLeapYear(year) && a.year == b.year == year
    requires a.month == 2 && a.day == 31 && b.month == 3 && b.day == 3 && a.TimeOfDay() == b.TimeOfDay()
    ensures ToUnix(a) == ToUnix(b)
  {
    hide DaysBeforeYear, DaysBeforeMonth;
    MonthsInClosedForm(year, 2);
    MonthsInClosedForm(year, 3);
  }

  /** As emulated time grows, the clock moves forward exactly when a whole second passes, and never back. */
  lemma ClockMovesForward(start: Seconds, earlier: Seconds, later: Seconds)
    requires earlier <= later && start + later / NANOSECONDS_PER_SECOND < END_SECONDS
    ensures var (a, b) := (FromUnix(SecondShown(start, earlier)), FromUnix(SecondShown(start, later)));
      && !Before(b, a)
      && (Before(a, b) <==> earlier / NANOSECONDS_PER_SECOND < later / NANOSECONDS_PER_SECOND)
  {
    hide FromUnix, ToUnix, Before;
    var s, t := SecondShown(start, earlier), SecondShown(start, later);
    WholeSeconds(earlier, later);
    FromUnixFinds(s);
    FromUnixFinds(t);
    FromUnixValid(s);
    FromUnixValid(t);
    OrderAgrees(FromUnix(s), FromUnix(t));
    OrderAgrees(FromUnix(t), FromUnix(s));
  }

  lemma WholeSeconds(earlier: nat, later: nat)
    requires earlier <= later
    ensures earlier / NANOSECONDS_PER_SECOND <= later / NANOSECONDS_PER_SECOND
  {
  }

  /** Clamping the elapsed time keeps its order, so no setting of the clock runs it backwards. */
  lemma ClampingKeepsOrder(earlier: nat, later: nat)
    requires earlier <= later
    ensures Clamped(earlier) <= Clamped(later) && (later <= WORD_MAX ==> Clamped(later) == later)
  {
  }

  /** One second past the range of the year the clock does run backwards: the 16-bit year wraps. */
  lemma YearWraps()
    ensures Before(FromUnix(END_SECONDS), FromUnix(END_SECONDS - 1))
  {
    hide YearAt, MonthAt;
    FromUnixFinds(END_SECONDS - 1);
    FromUnixValid(END_SECONDS - 1);
    FromUnixValid(END_SECONDS);
    WrappedYear(END_DAYS, EPOCH_YEAR, 0xFFFF);
  }

  lemma WrappedYear(days: nat, first: Year, last: Year)
    requires days == END_DAYS && first == EPOCH_YEAR && last == 0xFFFF
    ensures YearAt(days, first) == (0, 0)
  {
    hide DaysBeforeYear, DaysInYear, YearAt;
    YearFits(last);
    YearsBeforeEpoch(first);
    YearReached(days, first, last);
    LastYearWraps(last);
  }

  lemma LastYearWraps(last: Year)
    requires last == 0xFFFF
    ensures YearAt(DaysInYear(last), last) == (0, 0)
  {
    var zero: Year := 0;
    assert YearAt(0, zero) == (0, 0);
  }

  /** The year loop passes every year that fits before the day. */
  lemma {:induction false} YearReached(remaining: nat, year: Year, later: Year)
    requires EPOCH_YEAR <= year <= later
    requires DaysBeforeYear(later) <= DaysBeforeYear(year) + remaining
    ensures YearAt(remaining, year) == YearAt(DaysBeforeYear(year) + remaining - DaysBeforeYear(later), later)
    decreases later - year
  {
    if year < later {
      YearsGrow(year, later);
      YearReached(remaining - DaysInYear(year), year + 1, later);
    }
  }
}
