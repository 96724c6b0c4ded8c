/** `DateTime` of src/model/time.rs, and its conversions to and from Unix time. */
module Timestamp {
  import opened Wrappers
  import opened Calendar

  datatype DateTime = DateTime(
    year: int, month: int, day: int,
    hour: int, minute: int, second: int, nanosecond: int,
    offsetMinutes: Option<int>)
  {
    function CivilDate(): Date {
      Date(year, month, day)
    }

    /** What every constructor of the type establishes, beyond the width of the offset. */
    predicate Valid() {
      && InI32(year) && ValidDate(CivilDate())
      && 0 <= hour < 24 && 0 <= minute < 60 && 0 <= second < 60
      && 0 <= nanosecond < 1_000_000_000
      && (offsetMinutes.Some? ==> InI16(offsetMinutes.value))
    }

    function UnixSeconds(): Option<int>
      requires InI32(year)
    {
      match offsetMinutes
      case Some(offset) => Some(UnixSecondsAt(offset))
      case None => None
    }

    /** An offset the value carries wins over the one supplied. */
    function UnixSecondsAt(offset: int): int
      requires InI32(year)
    {
      DaysFromCivil(CivilDate()) * 86_400 + hour * 3_600 + minute * 60 + second
      - offsetMinutes.UnwrapOr(offset) * 60
    }
  }

  predicate InI16(n: int) {
    -0x8000 <= n <= 0x7fff
  }

  predicate InI64(n: int) {
    -0x8000_0000_0000_0000 <= n <= 0x7fff_ffff_ffff_ffff
  }

  function FromUnixSeconds(seconds: int): DateTime {
    var quotient := TruncDiv(seconds, 86_400);
    var remainder := seconds - quotient * 86_400;
    var days := if remainder < 0 then quotient - 1 else quotient;
    var rem := if remainder < 0 then remainder + 86_400 else remainder;
    var civil := CivilFromDays(days);
    DateTime(civil.year, civil.month, civil.day,
             rem / 3_600, rem % 3_600 / 60, rem % 60, 0, Some(0))
  }

  lemma FromUnixSecondsUsesFloor(seconds: int)
    ensures var civil := CivilFromDays(seconds / 86_400);
            var rem := seconds % 86_400;
            FromUnixSeconds(seconds) == DateTime(civil.year, civil.month, civil.day,
              rem / 3_600, rem % 3_600 / 60, rem % 60, 0, Some(0))
  {
    hide CivilFromDays;
    var quotient := TruncDiv(seconds, 86_400);
    if seconds < 0 && quotient * 86_400 != seconds {
      DivUnique(seconds, 86_400, quotient - 1);
    } else {
      DivUnique(seconds, 86_400, quotient);
    }
  }

  lemma ClockSplits(rem: int)
    requires 0 <= rem < 86_400
    ensures rem / 3_600 * 3_600 + rem % 3_600 / 60 * 60 + rem % 60 == rem
    ensures 0 <= rem / 3_600 < 24 && 0 <= rem % 3_600 / 60 < 60
  {
    DivUnique(rem, 60, rem / 3_600 * 60 + rem % 3_600 / 60);
  }

  lemma ClockRecovered(hour: int, minute: int, second: int)
    requires 0 <= hour < 24 && 0 <= minute < 60 && 0 <= second < 60
    ensures var rem := hour * 3_600 + minute * 60 + second;
            && 0 <= rem < 86_400
            && rem / 3_600 == hour && rem % 3_600 / 60 == minute && rem % 60 == second
  {
    var rem := hour * 3_600 + minute * 60 + second;
    DivUnique(rem, 3_600, hour);
    DivUnique(minute * 60 + second, 60, minute);
    DivUnique(rem, 60, hour * 60 + minute);
  }

  lemma UnixSecondsOfParts(seconds: int)
    ensures FromUnixSeconds(seconds).UnixSeconds()
         == Some(DaysFromCivil(CivilFromDays(seconds / 86_400)) * 86_400 + seconds % 86_400)
  {
    hide FromUnixSeconds, CivilFromDays, DaysFromCivil;
    FromUnixSecondsUsesFloor(seconds);
    UnixSecondsOfCivil(CivilFromDays(seconds / 86_400), seconds % 86_400);
    hide *;
  }

  lemma UnixSecondsOfCivil(civil: Date, rem: int)
    requires InI32(civil.year)
    requires 0 <= rem < 86_400
    ensures DateTime(civil.year, civil.month, civil.day,
                     rem / 3_600, rem % 3_600 / 60, rem % 60, 0, Some(0)).UnixSeconds()
         == Some(DaysFromCivil(civil) * 86_400 + rem)
  {
    ClockSplits(rem);
    hide DaysFromCivil;
  }

  /** Writing a Unix instant as a date loses nothing, exactly while the year fits 32 bits. */
  lemma UnixTimeRoundTrips(seconds: int)
    ensures FromUnixSeconds(seconds).UnixSeconds() == Some(seconds)
       <==> InI32(MarchYear(NthDate(seconds / 86_400)))
  {
    hide *;
    CompiledCalendarIsExact(seconds / 86_400);
    UnixSecondsOfParts(seconds);
  }

  /** The date written is the calendar's own, exactly while its year fits 32 bits. */
  lemma UnixTimeNamesTheCalendarDay(seconds: int)
    ensures FromUnixSeconds(seconds).CivilDate() == NthDate(seconds / 86_400)
       <==> InI32(NthDate(seconds / 86_400).year)
  {
    FromUnixSecondsUsesFloor(seconds);
    CompiledCalendarIsExact(seconds / 86_400);
    hide FromUnixSeconds, CivilFromDays, NthDate, ValidDate;
  }

  lemma {:induction false} LeapDaysGrow(r: int, s: int)
    requires 0 <= r <= s < 400
    ensures 0 <= r / 4 - r / 100 <= s / 4 - s / 100 <= 96
    decreases s - r
  {
    if r < s {
      LeapDaysGrow(r, s - 1);
      assert s / 100 <= (s - 1) / 100 + 1;
      assert s % 100 == 0 ==> s % 4 == 0;
    }
  }

  lemma YearsAreAtLeast365Days(y: int, z: int)
    requires y <= z
    ensures DaysOf(y, 3, 1) + 365 * (z - y) <= DaysOf(z, 3, 1)
  {
    var r, r' := y % 400, z % 400;
    var leap, leap' := r / 4 - r / 100, r' / 4 - r' / 100;
    assert YearStart(r) == 365 * r + leap && YearStart(r') == 365 * r' + leap';
    assert y == 400 * (y / 400) + r && z == 400 * (z / 400) + r';
    hide *;
    DaysOfUsesFloor(y, 3, 1);
    DaysOfUsesFloor(z, 3, 1);
    LeapDaysGrow(0, r);
    LeapDaysGrow(0, r');
    if r <= r' {
      LeapDaysGrow(r, r');
    }
    ErasBalance(y / 400, z / 400, r, r', leap, leap');
  }

  lemma ErasBalance(era: int, era': int, r: int, r': int, leap: int, leap': int)
    requires 400 * era + r <= 400 * era' + r' && 0 <= r < 400 && 0 <= r' < 400
    requires 0 <= leap <= 96 && 0 <= leap' <= 96 && (r <= r' ==> leap <= leap')
    ensures era * 146_097 + 365 * r + leap + 365 * (400 * era' + r' - 400 * era - r) <= era' * 146_097 + 365 * r' + leap'
  {
    assert era <= era';
  }

  lemma DayWithinYear(d: Date)
    requires ValidDate(d)
    ensures var within := DayNumber(d) - DaysOf(MarchYear(d), 3, 1);
            if d.month > 2 then 0 <= within <= 305 else 306 <= within <= 365
  {
    SameYear(MarchYear(d), d.month, d.day);
    hide DaysOf;
  }

  lemma InstantIsNearItsDay(t: DateTime, zone: int)
    requires t.Valid() && InI16(zone)
    ensures var days := DaysFromCivil(t.CivilDate());
            -1_966_080 <= t.UnixSecondsAt(zone) - days * 86_400 <= 86_400 + 1_966_080
  {
    hide DaysFromCivil, ValidDate;
    ClockRecovered(t.hour, t.minute, t.second);
  }

  // ---- instants that a date can be written for -----------------------------------------------

  const FIRST_DATE := Date(I32_MIN, 3, 1)
  const END_DATE := Date(I32_MAX + 1, 3, 1)

  lemma MarchHasFirst(year: int)
    ensures ValidDate(Date(year, 3, 1))
  {
  }

  lemma YearFits(d: Date)
    requires ValidDate(d)
    ensures InI32(MarchYear(d)) <==> !Before(d, FIRST_DATE) && Before(d, END_DATE)
  {
    hide DaysInMonth;
  }

  /** The days whose March-based year fits are those from one first of March to another. */
  lemma YearFitsBetween(n: int)
    ensures InI32(MarchYear(NthDate(n))) <==> DayNumber(FIRST_DATE) <= n < DayNumber(END_DATE)
  {
    hide NthDate, DayNumber, DateOfDay, DaysInMonth;
    var d := NthDate(n);
    assert ValidDate(FIRST_DATE) && ValidDate(END_DATE) by {
      MarchHasFirst(FIRST_DATE.year);
      MarchHasFirst(END_DATE.year);
    }
    ClosedFormIsCalendar(n);
    DayNumberIsMonotone(d, FIRST_DATE);
    DayNumberIsMonotone(d, END_DATE);
    YearFits(d);
  }

  lemma InstantFitsBetween(seconds: int)
    ensures InI32(MarchYear(NthDate(seconds / 86_400)))
       <==> DayNumber(FIRST_DATE) * 86_400 <= seconds < DayNumber(END_DATE) * 86_400
  {
    hide *;
    YearFitsBetween(seconds / 86_400);
  }

  /** Days since the first of March of a leap year; negative before it. */
  function DaysSinceMarch(month: int, day: int): int {
    DayOfYear(month, day) - if month <= 2 then 366 else 0
  }

  /** Local seconds since the first of March of the timestamp's year, as long as that is a leap year. */
  function SinceMarch(t: DateTime): int {
    DaysSinceMarch(t.month, t.day) * 86_400 + t.hour * 3_600 + t.minute * 60 + t.second
  }

  /** Whether moving to UTC takes a timestamp of the least year across the first of March. */
  predicate CrossesFirstOfMarch(t: DateTime, zone: int) {
    var utc := SinceMarch(t) - t.offsetMinutes.UnwrapOr(zone) * 60;
    t.year == I32_MIN && (SinceMarch(t) < 0) != (utc < 0)
  }

  lemma DayOfYearRange(d: Date)
    requires ValidDate(d)
    ensures if d.month > 2 then 0 <= DayOfYear(d.month, d.day) <= 305 else 306 <= DayOfYear(d.month, d.day) <= 365
    ensures if d.month > 2 then 0 <= DaysSinceMarch(d.month, d.day) <= 305
            else -60 <= DaysSinceMarch(d.month, d.day) < 0
  {
    DayWithinYear(d);
    SameYear(MarchYear(d), d.month, d.day);
    hide DaysOf;
  }

  lemma FirstIsInRange()
    ensures -784_400_000_000 < DaysOf(I32_MIN, 3, 1)
  {
    hide DaysOf;
    DaysOfUsesFloor(I32_MIN, 3, 1);
  }

  lemma LastIsInRange()
    ensures DaysOf(I32_MAX, 3, 1) < 784_400_000_000
  {
    hide DaysOf;
    DaysOfUsesFloor(I32_MAX, 3, 1);
  }

  lemma DayOfFirstOfMarch(year: int)
    ensures DayNumber(Date(year, 3, 1)) == DaysOf(year, 3, 1)
  {
    hide DaysOf;
  }

  lemma LeapYearAfterLast()
    ensures DaysInMonth(I32_MAX + 1, 2) == 29
  {
  }

  lemma EdgesOfRange()
    ensures DayNumber(FIRST_DATE) == DaysOf(I32_MIN, 3, 1) && DayNumber(END_DATE) == DaysOf(I32_MAX, 3, 1) + 366
    ensures -784_500_000_000 < DayNumber(FIRST_DATE) && DayNumber(END_DATE) < 784_500_000_000
  {
    hide DaysOf, DayNumber, DaysInMonth, YearStart;
    DayOfFirstOfMarch(I32_MIN);
    DayOfFirstOfMarch(I32_MAX + 1);
    YearLength(I32_MAX, I32_MAX / 400, I32_MAX % 400);
    LeapYearAfterLast();
    FirstIsInRange();
    LastIsInRange();
  }

  /** Where the compiled day number of a date lies in the range, from either edge. */
  lemma CompiledDayInRange(d: Date)
    requires ValidDate(d) && InI32(d.year)
    ensures if d.year > I32_MIN then DayNumber(FIRST_DATE) + 24 < DaysFromCivil(d) < DayNumber(END_DATE) - 24
            else DaysFromCivil(d) == DaysSinceMarch(d.month, d.day) + DayNumber(if d.month > 2 then FIRST_DATE else END_DATE)
  {
    var y := AsI32(MarchYear(d));
    assert y == if d.year == I32_MIN && d.month <= 2 then I32_MAX else MarchYear(d);
    hide DaysOf, AsI32, ValidDate, DayOfYear;
    EdgesOfRange();
    SameYear(y, d.month, d.day);
    DayOfYearRange(d);
    YearsAreAtLeast365Days(I32_MIN, y);
    YearsAreAtLeast365Days(y, I32_MAX);
  }

  lemma InstantOfParts(t: DateTime, zone: int)
    requires t.Valid() && InI16(zone)
    ensures t.UnixSecondsAt(zone)
         == (DaysFromCivil(t.CivilDate()) - DaysSinceMarch(t.month, t.day)) * 86_400
            + SinceMarch(t) - t.offsetMinutes.UnwrapOr(zone) * 60
    ensures if t.month <= 2 then -60 * 86_400 <= SinceMarch(t) < 0 else 0 <= SinceMarch(t) < 306 * 86_400
  {
    hide DaysFromCivil, DaysSinceMarch;
    DayOfYearRange(t.CivilDate());
    ClockRecovered(t.hour, t.minute, t.second);
  }

  /**
   Any timestamp in any zone denotes an instant that 64 bits hold, and rewriting it in UTC is that
   same instant exactly unless it crosses the first of March of the least year.
   */
  lemma InstantsSurviveUtc(t: DateTime, zone: int)
    requires t.Valid() && InI16(zone)
    ensures InI64(t.UnixSecondsAt(zone))
    ensures FromUnixSeconds(t.UnixSecondsAt(zone)).UnixSeconds() == Some(t.UnixSecondsAt(zone))
       <==> !CrossesFirstOfMarch(t, zone)
  {
    hide DaysFromCivil, DayNumber, DaysSinceMarch, FromUnixSeconds, SinceMarch, ValidDate, NthDate;
    var s := t.UnixSecondsAt(zone);
    EdgesOfRange();
    CompiledDayInRange(t.CivilDate());
    InstantIsNearItsDay(t, zone);
    InstantOfParts(t, zone);
    InstantFitsBetween(s);
    UnixTimeRoundTrips(s);
  }

  function UtcTimestamp(civil: Date, hour: int, minute: int, second: int): DateTime {
    DateTime(civil.year, civil.month, civil.day, hour, minute, second, 0, Some(0))
  }

  lemma WrittenAs(days: int, hour: int, minute: int, second: int)
    requires 0 <= hour < 24 && 0 <= minute < 60 && 0 <= second < 60
    ensures FromUnixSeconds(days * 86_400 + hour * 3_600 + minute * 60 + second)
         == UtcTimestamp(CivilFromDays(days), hour, minute, second)
  {
    hide FromUnixSeconds, CivilFromDays;
    var s := days * 86_400 + hour * 3_600 + minute * 60 + second;
    ClockRecovered(hour, minute, second);
    DivUnique(s, 86_400, days);
    FromUnixSecondsUsesFloor(s);
  }

  /** A whole-second UTC timestamp is what its own instant is written as. */
  lemma UtcTimestampsRoundTrip(d: Date, hour: int, minute: int, second: int)
    requires ValidDate(d) && InI32(d.year) && InI32(MarchYear(d))
    requires 0 <= hour < 24 && 0 <= minute < 60 && 0 <= second < 60
    ensures FromUnixSeconds(UtcTimestamp(d, hour, minute, second).UnixSecondsAt(0))
         == UtcTimestamp(d, hour, minute, second)
  {
    hide DaysFromCivil, NthDate, FromUnixSeconds, CivilFromDays, ValidDate, MarchYear;
    var days := DaysFromCivil(d);
    CompiledDayNumberIsExact(d);
    CompiledCalendarIsExact(days);
    WrittenAs(days, hour, minute, second);
    assert UtcTimestamp(d, hour, minute, second).CivilDate() == d;
  }

  /**
   The instant of a timestamp is its day, counted in the calendar, and its clock, less the offset it
   carries; one that carries none has an instant only where the offset is supplied.
   */
  lemma InstantIs(t: DateTime, n: int, zone: int)
    requires InI32(t.year) && t.CivilDate() == NthDate(n) && InI32(MarchYear(t.CivilDate()))
    ensures var offset := if t.offsetMinutes.Some? then t.offsetMinutes.value else zone;
            t.UnixSecondsAt(zone) == n * 86_400 + t.hour * 3_600 + t.minute * 60 + t.second - offset * 60
    ensures t.UnixSeconds() == if t.offsetMinutes.Some? then Some(t.UnixSecondsAt(zone)) else None
  {
    CompiledDayNumberIsExact(t.CivilDate());
    DayIsUnique(DaysFromCivil(t.CivilDate()), n);
    hide DaysFromCivil, NthDate;
  }

  lemma DayIsUnique(m: int, n: int)
    requires NthDate(m) == NthDate(n)
    ensures m == n
  {
    ClosedFormIsCalendar(m);
    ClosedFormIsCalendar(n);
  }
}
