/**
 The proleptic Gregorian calendar of src/model/time.rs: a closed form from a date to the
 number of days since the Unix epoch, its inverse, and the day-by-day calendar both are
 measured against.
 */
module Calendar {

  datatype Date = Date(year: int, month: int, day: int)

  const I32_MIN := -0x8000_0000
  const I32_MAX := 0x7fff_ffff

  predicate InI32(n: int) {
    I32_MIN <= n <= I32_MAX
  }

  /** Rust's `as i32` on a wider integer, and its wrapping 32-bit arithmetic. */
  function AsI32(n: int): (r: int)
    ensures InI32(r)
    ensures InI32(n) ==> r == n
    ensures r == n || r <= n - 0x1_0000_0000 || r >= n + 0x1_0000_0000
  {
    (n + 0x8000_0000) % 0x1_0000_0000 - 0x8000_0000
  }

  /** Rust's `/`: the quotient rounds toward zero. */
  function TruncDiv(a: int, b: int): int
    requires b > 0
  {
    if a >= 0 then a / b else -((-a) / b)
  }

  // ---- the calendar, one day at a time ---------------------------------------

  predicate IsLeapYear(year: int) {
    year % 4 == 0 && (year % 100 != 0 || year % 400 == 0)
  }

  function DaysInMonth(year: int, month: int): int {
    if month == 2 then (if IsLeapYear(year) then 29 else 28)
    else if month == 4 || month == 6 || month == 9 || month == 11 then 30
    else if 1 <= month <= 12 then 31
    else 0
  }

  predicate ValidDate(d: Date) {
    1 <= d.month <= 12 && 1 <= d.day <= DaysInMonth(d.year, d.month)
  }

  function NextDate(d: Date): (r: Date)
    requires ValidDate(d)
    ensures ValidDate(r) && Before(d, r)
  {
    if d.day < DaysInMonth(d.year, d.month) then Date(d.year, d.month, d.day + 1)
    else if d.month < 12 then Date(d.year, d.month + 1, 1)
    else Date(d.year + 1, 1, 1)
  }

  function PreviousDate(d: Date): (r: Date)
    requires ValidDate(d)
    ensures ValidDate(r) && NextDate(r) == d
  {
    if d.day > 1 then Date(d.year, d.month, d.day - 1)
    else if d.month > 1 then Date(d.year, d.month - 1, DaysInMonth(d.year, d.month - 1))
    else Date(d.year - 1, 12, 31)
  }

  predicate Before(a: Date, b: Date) {
    || a.year < b.year
    || (a.year == b.year && a.month < b.month)
    || (a.year == b.year && a.month == b.month && a.day < b.day)
  }

  const EPOCH := Date(1970, 1, 1)

  /** The date `n` days after the epoch, reached by stepping the calendar `n` times. */
  function NthDate(n: int): (d: Date)
    ensures ValidDate(d)
    decreases if n < 0 then -n else n
  {
    if n == 0 then EPOCH
    else if n > 0 then NextDate(NthDate(n - 1))
    else PreviousDate(NthDate(n + 1))
  }

  // ---- the closed forms ------------------------------------------------------

  /** The year a date belongs to when years start in March, which puts the leap day last. */
  function MarchYear(d: Date): int {
    if d.month <= 2 then d.year - 1 else d.year
  }

  function DayOfYear(month: int, day: int): int {
    (153 * (if month > 2 then month - 3 else month + 9) + 2) / 5 + day - 1
  }

  function YearStart(yearOfEra: int): int {
    yearOfEra * 365 + yearOfEra / 4 - yearOfEra / 100
  }

  /** Days before the March-based year `y`, plus the day of that year. */
  function DaysOf(y: int, month: int, day: int): int {
    var era := TruncDiv(if y >= 0 then y else y - 399, 400);
    var yearOfEra := y - era * 400;
    era * 146_097 + YearStart(yearOfEra) + DayOfYear(month, day) - 719_468
  }

  /** `days_from_civil` on mathematical integers. */
  function DayNumber(d: Date): int {
    DaysOf(MarchYear(d), d.month, d.day)
  }

  /** `days_from_civil` as compiled: the year arithmetic is 32 bits wide. */
  function DaysFromCivil(d: Date): int
    requires InI32(d.year)
  {
    DaysOf(AsI32(MarchYear(d)), d.month, d.day)
  }

  function DateOfEraDay(era: int, dayOfEra: int): Date {
    var yearOfEra := YearOfEraDay(dayOfEra);
    var dayOfYear := dayOfEra - YearStart(yearOfEra);
    var mp := (5 * dayOfYear + 2) / 153;
    var day := dayOfYear - (153 * mp + 2) / 5 + 1;
    var month := if mp < 10 then mp + 3 else mp - 9;
    Date(yearOfEra + era * 400 + (if month <= 2 then 1 else 0), month, day)
  }

  function YearOfEraDay(dayOfEra: int): int {
    (dayOfEra - dayOfEra / 1_460 + dayOfEra / 36_524 - dayOfEra / 146_096) / 365
  }

  /** `civil_from_days` on mathematical integers. */
  function DateOfDay(days: int): Date {
    var z := days + 719_468;
    var era := TruncDiv(if z >= 0 then z else z - 146_096, 146_097);
    DateOfEraDay(era, z - era * 146_097)
  }

  /** `civil_from_days` as compiled: the year is cast to 32 bits at the end. */
  function CivilFromDays(days: int): (d: Date)
    ensures InI32(d.year)
  {
    var exact := DateOfDay(days);
    Date(AsI32(exact.year), exact.month, exact.day)
  }

  // ---- the closed form counts days -------------------------------------------

  /** Shifting before the truncating division makes it a floor, for every year. */
  lemma EraIsFloor(y: int, width: int)
    requires width > 0
    ensures TruncDiv(if y >= 0 then y else y - (width - 1), width) == y / width
  {
    if y < 0 {
      var q := y / width;
      var r := y % width;
      assert y == q * width + r;
      var a := width - 1 - y;
      assert a == (-q) * width + (width - 1 - r);
      assert a / width == -q by {
        DivUnique(a, width, -q);
      }
    }
  }

  lemma MulMonotone(x: int, y: int, b: int)
    requires x <= y && b >= 0
    ensures x * b <= y * b
  {
  }

  lemma DivUnique(a: int, b: int, q: int)
    requires b > 0 && q * b <= a < q * b + b
    ensures a / b == q && a % b == a - q * b
  {
    var p := a / b;
    if p > q {
      MulMonotone(q + 1, p, b);
    } else if p < q {
      MulMonotone(p + 1, q, b);
    }
  }

  lemma DaysOfUsesFloor(y: int, month: int, day: int)
    ensures DaysOf(y, month, day)
         == y / 400 * 146_097 + YearStart(y % 400) + DayOfYear(month, day) - 719_468
  {
    EraIsFloor(y, 400);
  }

  /** A year of the era starting in March is as long as the February that ends it. */
  lemma EraYearLength(r: int)
    requires 0 <= r < 399
    ensures YearStart(r + 1) == YearStart(r) + 337 + DaysInMonth(r + 1, 2)
  {
    assert (r + 1) / 4 == r / 4 + (if (r + 1) % 4 == 0 then 1 else 0);
    assert (r + 1) / 100 == r / 100 + (if (r + 1) % 100 == 0 then 1 else 0);
    assert (r + 1) % 400 == r + 1;
  }

  lemma LeapByEra(era: int, r: int)
    ensures IsLeapYear(era * 400 + r) == IsLeapYear(r)
  {
    DivUnique(era * 400 + r, 4, 100 * era + r / 4);
    DivUnique(era * 400 + r, 100, 4 * era + r / 100);
    DivUnique(era * 400 + r, 400, era + r / 400);
  }

  /** The March-based year `y` ends with the February of `y + 1`. */
  lemma YearLength(y: int, era: int, r: int)
    requires y == era * 400 + r && 0 <= r < 400
    ensures DaysOf(y + 1, 3, 1) == DaysOf(y, 3, 1) + 337 + DaysInMonth(y + 1, 2)
  {
    DaysOfUsesFloor(y, 3, 1);
    DaysOfUsesFloor(y + 1, 3, 1);
    DivUnique(y, 400, era);
    LeapByEra(era, r + 1);
    if r < 399 {
      DivUnique(y + 1, 400, era);
      EraYearLength(r);
    } else {
      DivUnique(y + 1, 400, era + 1);
      assert IsLeapYear(400);
    }
  }

  /** The next calendar day is always one further from the epoch. */
  lemma NextDateIsNextDay(d: Date)
    requires ValidDate(d)
    ensures DayNumber(NextDate(d)) == DayNumber(d) + 1
  {
    var n := NextDate(d);
    var y := MarchYear(d);
    SameYear(y, d.month, d.day);
    SameYear(MarchYear(n), n.month, n.day);
    hide DaysOf;
    if d.month == 2 {
      YearLength(y, y / 400, y % 400);
    } else {
      MonthLength(d.month, d.day);
    }
  }

  lemma MonthLength(month: int, day: int)
    requires 1 <= month <= 12 && month != 2
    ensures DayOfYear(month, day + 1) == DayOfYear(month, day) + 1
    ensures DayOfYear(if month == 12 then 1 else month + 1, 1)
         == DayOfYear(month, DaysInMonth(1, month)) + 1
  {
  }

  lemma SameYear(y: int, month: int, day: int)
    ensures DaysOf(y, month, day) == DaysOf(y, 3, 1) + DayOfYear(month, day)
  {
  }

  // ---- and back --------------------------------------------------------------

  /** How many leap days the correction sees: one a cycle, and the one of a cycle that is ending. */
  lemma CyclesPassed(century: int, cycle: int, year: int, dayOfYear: int)
    requires 0 <= century <= 3 && 0 <= cycle <= 24 && 0 <= year <= 3 && 0 <= dayOfYear <= 365
    requires dayOfYear == 365 ==> year == 3 && (cycle == 24 ==> century == 3)
    ensures var doe := 36_524 * century + 1_461 * cycle + 365 * year + dayOfYear;
            var slack := 24 * century + cycle + 365 * year + dayOfYear;
            doe / 1_460 == 25 * century + cycle + if slack >= 1_460 then 1 else 0
  {
    var doe := 36_524 * century + 1_461 * cycle + 365 * year + dayOfYear;
    var slack := 24 * century + cycle + 365 * year + dayOfYear;
    assert doe == (25 * century + cycle) * 1_460 + slack;
    assert slack < 2 * 1_460;
    DivUnique(doe, 1_460, 25 * century + cycle + if slack >= 1_460 then 1 else 0);
  }

  lemma CenturiesPassed(century: int, cycle: int, year: int, dayOfYear: int)
    requires 0 <= century <= 3 && 0 <= cycle <= 24 && 0 <= year <= 3 && 0 <= dayOfYear <= 365
    requires dayOfYear == 365 ==> year == 3 && (cycle == 24 ==> century == 3)
    ensures var doe := 36_524 * century + 1_461 * cycle + 365 * year + dayOfYear;
            && 0 <= doe <= 146_096
            && (doe < 146_096 ==> doe / 36_524 == century)
            && (doe == 146_096 ==> century == 3 && cycle == 24 && year == 3 && dayOfYear == 365)
  {
    var doe := 36_524 * century + 1_461 * cycle + 365 * year + dayOfYear;
    if doe < 146_096 {
      DivUnique(doe, 36_524, century);
    }
  }

  /** Century, leap cycle and year of the cycle add up to the year of the era. */
  lemma CorrectionsCancel(century: int, cycle: int, year: int, dayOfYear: int)
    requires 0 <= century <= 3 && 0 <= cycle <= 24 && 0 <= year <= 3 && 0 <= dayOfYear <= 365
    requires dayOfYear == 365 ==> year == 3 && (cycle == 24 ==> century == 3)
    ensures var doe := 36_524 * century + 1_461 * cycle + 365 * year + dayOfYear;
            YearOfEraDay(doe) == 100 * century + 4 * cycle + year
  {
    var doe := 36_524 * century + 1_461 * cycle + 365 * year + dayOfYear;
    CenturiesPassed(century, cycle, year, dayOfYear);
    if doe < 146_096 {
      CyclesPassed(century, cycle, year, dayOfYear);
      var r := 100 * century + 4 * cycle + year;
      DivUnique(doe - doe / 1_460 + doe / 36_524, 365, r);
    }
  }

  /** Within an era, the year is recovered from the day. */
  lemma YearOfEraDayIsExact(r: int, dayOfYear: int)
    requires 0 <= r < 400
    requires 0 <= dayOfYear < 337 + DaysInMonth(r + 1, 2)
    ensures YearOfEraDay(YearStart(r) + dayOfYear) == r
    ensures 0 <= YearStart(r) + dayOfYear < 146_097
  {
    var century := r / 100;
    var cycle := r % 100 / 4;
    var year := r - 100 * century - 4 * cycle;
    DivUnique(r, 4, 25 * century + cycle);
    DivUnique(r + 1, 4, 25 * century + cycle + (if year == 3 then 1 else 0));
    CorrectionsCancel(century, cycle, year, dayOfYear);
  }

  /** Within a year, the month is recovered from the day. */
  lemma MonthOfDayIsExact(month: int, day: int)
    requires 1 <= month <= 12
    requires 1 <= day <= (if month == 2 then 29 else DaysInMonth(1, month))
    ensures (5 * DayOfYear(month, day) + 2) / 153 == (if month > 2 then month - 3 else month + 9)
  {
  }

  /** The era is recovered from the day, before the epoch as after it. */
  lemma EraOfDayIsExact(era: int, dayOfEra: int)
    requires 0 <= dayOfEra < 146_097
    ensures DateOfDay(era * 146_097 + dayOfEra - 719_468) == DateOfEraDay(era, dayOfEra)
  {
    hide DateOfEraDay;
    var z := era * 146_097 + dayOfEra;
    EraIsFloor(z, 146_097);
    DivUnique(z, 146_097, era);
  }

  lemma DateOfEraDayIsExact(era: int, r: int, month: int, day: int)
    requires 0 <= r < 400
    requires 1 <= month <= 12 && 1 <= day <= DaysInMonth(r + 1, month)
    ensures 0 <= YearStart(r) + DayOfYear(month, day) < 146_097
    ensures DateOfEraDay(era, YearStart(r) + DayOfYear(month, day))
         == Date(era * 400 + r + (if month <= 2 then 1 else 0), month, day)
  {
    var dayOfYear := DayOfYear(month, day);
    assert 0 <= dayOfYear < 337 + DaysInMonth(r + 1, 2);
    YearOfEraDayIsExact(r, dayOfYear);
    MonthOfDayIsExact(month, day);
    hide YearStart, YearOfEraDay;
  }

  lemma DateOfDayInvertsDayNumber(d: Date)
    requires ValidDate(d)
    ensures DateOfDay(DayNumber(d)) == d
  {
    var y := MarchYear(d);
    var era, r := y / 400, y % 400;
    assert d.day <= DaysInMonth(r + 1, d.month) by {
      LeapByEra(era, r + 1);
    }
    DateOfEraDayIsExact(era, r, d.month, d.day);
    DaysOfUsesFloor(y, d.month, d.day);
    EraOfDayIsExact(era, YearStart(r) + DayOfYear(d.month, d.day));
    hide DateOfDay, DateOfEraDay, YearStart, DayOfYear, DaysInMonth;
  }

  lemma EpochIsDayZero()
    ensures DayNumber(EPOCH) == 0
  {
  }

  lemma {:induction false} DayNumberOfNthDate(n: int)
    ensures DayNumber(NthDate(n)) == n
    decreases if n < 0 then -n else n
  {
    hide DayNumber, ValidDate, NextDate, PreviousDate;
    if n == 0 {
      EpochIsDayZero();
    } else if n > 0 {
      DayNumberOfNthDate(n - 1);
      NextDateIsNextDay(NthDate(n - 1));
    } else {
      DayNumberOfNthDate(n + 1);
      NextDateIsNextDay(NthDate(n));
    }
  }

  /** The closed form is the day-by-day calendar, in both directions, for every day. */
  lemma ClosedFormIsCalendar(n: int)
    ensures DayNumber(NthDate(n)) == n
    ensures DateOfDay(n) == NthDate(n)
  {
    hide DayNumber, DateOfDay, ValidDate;
    DayNumberOfNthDate(n);
    DateOfDayInvertsDayNumber(NthDate(n));
  }

  /** The two closed forms are mutually inverse between all integers and all valid dates. */
  lemma DaysAndDatesAreInBijection(n: int, d: Date)
    ensures ValidDate(DateOfDay(n)) && DayNumber(DateOfDay(n)) == n
    ensures ValidDate(d) ==> DateOfDay(DayNumber(d)) == d
    ensures ValidDate(d) ==> (DayNumber(d) == n <==> DateOfDay(n) == d)
  {
    ClosedFormIsCalendar(n);
    if ValidDate(d) {
      DateOfDayInvertsDayNumber(d);
    }
  }

  lemma {:induction false} LaterDaysAreLaterDates(m: int, n: int)
    requires m < n
    ensures Before(DateOfDay(m), DateOfDay(n))
    decreases n - m
  {
    hide DayNumber, DateOfDay, ValidDate, NextDate;
    ClosedFormIsCalendar(n - 1);
    ClosedFormIsCalendar(n);
    var last := DateOfDay(n - 1);
    NextDateIsNextDay(last);
    DateOfDayInvertsDayNumber(NextDate(last));
    if m < n - 1 {
      LaterDaysAreLaterDates(m, n - 1);
    }
  }

  /** Counting days preserves the order of dates, both ways. */
  lemma DayNumberIsMonotone(a: Date, b: Date)
    requires ValidDate(a) && ValidDate(b)
    ensures Before(a, b) <==> DayNumber(a) < DayNumber(b)
  {
    hide DayNumber, DateOfDay, ValidDate;
    DateOfDayInvertsDayNumber(a);
    DateOfDayInvertsDayNumber(b);
    if DayNumber(a) < DayNumber(b) {
      LaterDaysAreLaterDates(DayNumber(a), DayNumber(b));
    } else if DayNumber(b) < DayNumber(a) {
      LaterDaysAreLaterDates(DayNumber(b), DayNumber(a));
    }
  }

  // ---- the 32-bit year -------------------------------------------------------

  lemma FarYearsAreFarDays(y: int, z: int, month: int, day: int)
    requires z <= y - 0x1_0000_0000
    ensures DaysOf(z, month, day) < DaysOf(y, month, day)
  {
    DaysOfUsesFloor(y, month, day);
    DaysOfUsesFloor(z, month, day);
    hide DaysOf, DayOfYear;
  }

  lemma WrappedSum(a: int, b: int)
    ensures AsI32(AsI32(a) + b) == AsI32(a + b)
  {
    var k := (a + 0x8000_0000) / 0x1_0000_0000;
    var m := (a + b + 0x8000_0000) / 0x1_0000_0000;
    assert AsI32(a) == a - k * 0x1_0000_0000;
    DivUnique(AsI32(a) + b + 0x8000_0000, 0x1_0000_0000, m - k);
  }

  /** What the compiled functions return is exact precisely while the year fits its type. */
  lemma CompiledCalendarIsExact(n: int)
    ensures CivilFromDays(n) == NthDate(n) <==> InI32(NthDate(n).year)
    ensures DaysFromCivil(CivilFromDays(n)) == n <==> InI32(MarchYear(NthDate(n)))
  {
    ClosedFormIsCalendar(n);
    var exact := NthDate(n);
    var y := MarchYear(exact);
    var wrapped := AsI32(y);
    WrappedSum(exact.year, y - exact.year);
    hide DaysOf, DateOfDay, NthDate, AsI32;
    assert AsI32(MarchYear(CivilFromDays(n))) == wrapped;
    if wrapped < y {
      FarYearsAreFarDays(y, wrapped, exact.month, exact.day);
    } else if wrapped > y {
      FarYearsAreFarDays(wrapped, y, exact.month, exact.day);
    }
  }

  /** For a date whose March-based year fits, `days_from_civil` counts calendar days. */
  lemma CompiledDayNumberIsExact(d: Date)
    requires ValidDate(d) && InI32(d.year) && InI32(MarchYear(d))
    ensures NthDate(DaysFromCivil(d)) == d
    ensures -784_400_000_000 < DaysFromCivil(d) < 784_400_000_000
  {
    DaysOfUsesFloor(MarchYear(d), d.month, d.day);
    DateOfDayInvertsDayNumber(d);
    ClosedFormIsCalendar(DaysFromCivil(d));
  }
}
