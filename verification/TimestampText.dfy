/**
 The text of an `xs:dateTime` (section 3.2.7 of XML Schema Part 2): the reader and the
 writer of src/model/time.rs, measured against the lexical form of the schema.
 */
module TimestampText {
  import opened Wrappers
  import opened Calendar
  import opened Timestamp
  import opened Decimal

  // ---- reading ---------------------------------------------------------------

  function StripPrefix(s: string, c: char): Option<string> {
    if s != [] && s[0] == c then Some(s[1..]) else None
  }

  /** What precedes the first `c`, and what follows it. */
  function SplitOnce(s: string, c: char): (r: Option<(string, string)>)
    ensures r.Some? ==> c !in r.value.0 && s == r.value.0 + ([c] + r.value.1)
    ensures r.None? ==> c !in s
  {
    if s == [] then None
    else if s[0] == c then Some(([], s[1..]))
    else
      match SplitOnce(s[1..], c)
      case Some((head, tail)) => Some(([s[0]] + head, tail))
      case None => None
  }

  function TakeFixedDigits(s: string, count: nat): (r: Option<(nat, string)>)
    ensures r.Some? <==> |s| >= count && AllDigits(s[..count])
    ensures r.Some? ==> r.value == (NatOf(s[..count]), s[count..])
  {
    if |s| >= count && AllDigits(s[..count]) then Some((NatOf(s[..count]), s[count..])) else None
  }

  /** How many digits `s` starts with. */
  function DigitRun(s: string): (n: nat)
    ensures n <= |s|
    ensures forall i :: 0 <= i < n ==> IsDigit(s[i])
    ensures n < |s| ==> !IsDigit(s[n])
  {
    if s != [] && IsDigit(s[0]) then 1 + DigitRun(s[1..]) else 0
  }

  function ParseYear(negative: bool, text: string): (year: Option<int>)
    ensures year.Some? ==> -I32_MAX <= year.value <= I32_MAX && |text| >= 4 && AllDigits(text)
  {
    if |text| < 4 || !AllDigits(text) then None
    else if |text| > 4 && text[0] == '0' then None
    else if NatOf(text) > I32_MAX then None
    else
      var year: int := NatOf(text);
      Some(if negative then -year else year)
  }

  function ParseFraction(s: string): Option<(nat, string)> {
    match StripPrefix(s, '.')
    case None => Some((0, s))
    case Some(rest) =>
      var digits := DigitRun(rest);
      if digits == 0 then None else Some((NatOf(NineDigits(rest[..digits])), rest[digits..]))
  }

  const MAX_OFFSET := 14 * 60

  function ParseOffset(s: string): Option<Option<int>> {
    if s == "" then Some(None)
    else if s == "Z" then Some(Some(0))
    else if s[0] != '+' && s[0] != '-' then None
    else
      var (hours, rest) :- TakeFixedDigits(s[1..], 2);
      var rest :- StripPrefix(rest, ':');
      var (minutes, rest) :- TakeFixedDigits(rest, 2);
      OffsetOf(s[0] == '-', hours, minutes, rest)
  }

  function OffsetOf(negative: bool, hours: nat, minutes: nat, rest: string): Option<Option<int>> {
    var total := hours * 60 + minutes;
    if rest != "" || minutes > 59 then None
    else if total > MAX_OFFSET then None
    else Some(Some(if negative then -total else total))
  }

  /** The checks on the fields once they are all read, and the `24:00:00` rollover. */
  function Assemble(year: int, month: nat, day: nat, hour: nat, minute: nat, second: nat,
                    nanosecond: nat, offset: Option<int>): Option<DateTime>
    requires InI32(year)
  {
    if !ValidDate(Date(year, month, day)) || minute > 59 || second > 59 then None
    else if hour < 24 then
      Some(DateTime(year, month, day, hour, minute, second, nanosecond, offset))
    else if hour == 24 && minute == 0 && second == 0 && nanosecond == 0 then
      var next := CivilFromDays(DaysFromCivil(Date(year, month, day)) + 1);
      Some(DateTime(next.year, next.month, next.day, 0, minute, second, nanosecond, offset))
    else None
  }

  /** `parse_xs_date_time`. */
  function ParseXsDateTime(s: string): Option<DateTime> {
    var negative := StripPrefix(s, '-').Some?;
    var (yearText, rest) :- SplitOnce(if negative then s[1..] else s, '-');
    var year :- ParseYear(negative, yearText);
    ParseAfterYear(year, rest)
  }

  function ParseAfterYear(year: int, s: string): Option<DateTime>
    requires InI32(year)
  {
    var (month, rest) :- TakeFixedDigits(s, 2);
    var rest :- StripPrefix(rest, '-');
    var (day, rest) :- TakeFixedDigits(rest, 2);
    var rest :- StripPrefix(rest, 'T');
    var (hour, rest) :- TakeFixedDigits(rest, 2);
    var rest :- StripPrefix(rest, ':');
    var (minute, rest) :- TakeFixedDigits(rest, 2);
    var rest :- StripPrefix(rest, ':');
    var (second, rest) :- TakeFixedDigits(rest, 2);
    var (nanosecond, rest) :- ParseFraction(rest);
    var offset :- ParseOffset(rest);
    Assemble(year, month, day, hour, minute, second, nanosecond, offset)
  }

  /** The loop that reads a fraction: nine steps, a missing digit counting as zero. */
  method ReadFraction(digits: string) returns (nanos: nat)
    requires AllDigits(digits)
    ensures nanos == NatOf(NineDigits(digits))
  {
    nanos := 0;
    ghost var nine := NineDigits(digits);
    for i := 0 to 9
      invariant nanos == NatOf(nine[..i])
    {
      var digit := if i < |digits| then DigitValue(digits[i]) else 0;
      assert nine[..i + 1][..i] == nine[..i];
      nanos := nanos * 10 + digit;
    }
    assert nine[..9] == nine;
  }

  /** The loop that drops a fraction's trailing zeros. */
  method TrimFraction(nanosecond: nat) returns (frac: string)
    ensures frac == TrimZeros(Padded(nanosecond, 9))
  {
    frac := Padded(nanosecond, 9);
    while |frac| > 0 && frac[|frac| - 1] == '0'
      invariant TrimZeros(frac) == TrimZeros(Padded(nanosecond, 9))
    {
      frac := frac[..|frac| - 1];
    }
  }

  // ---- writing ---------------------------------------------------------------

  function ZoneText(offset: Option<int>): string {
    match offset
    case None => ""
    case Some(minutes) =>
      if minutes == 0 then "Z"
      else
        var magnitude := if minutes < 0 then -minutes else minutes;
        [if minutes < 0 then '-' else '+']
        + (Padded(magnitude / 60, 2) + (":" + Padded(magnitude % 60, 2)))
  }

  function FractionText(nanosecond: nat): string {
    if nanosecond > 0 then "." + TrimZeros(Padded(nanosecond, 9)) else ""
  }

  /** The canonical form `Display` writes. */
  function Print(t: DateTime): string
    requires t.Valid()
  {
    (if t.year < 0 then "-" else "")
    + (Padded(if t.year < 0 then -t.year else t.year, 4)
    + ("-" + (Padded(t.month, 2)
    + ("-" + (Padded(t.day, 2)
    + ("T" + (Padded(t.hour, 2)
    + (":" + (Padded(t.minute, 2)
    + (":" + (Padded(t.second, 2)
    + (FractionText(t.nanosecond) + ZoneText(t.offsetMinutes)))))))))))))
  }

  // ---- the lexical form ------------------------------------------------------

  /** `[-]yyyy[y+]-mm-ddThh:mm:ss[.fraction]`, field by field. */
  datatype Fields = Fields(
    negative: bool, year: string, month: string, day: string,
    hour: string, minute: string, second: string, fraction: Option<string>)

  /** `[Z|(+|-)hh:mm]` */
  datatype Zone = Unzoned | Utc | Shifted(negative: bool, hours: string, minutes: string)

  predicate TwoDigits(s: string) {
    |s| == 2 && AllDigits(s)
  }

  /** What the lexical form asks of the fields, before anything is known of the calendar. */
  predicate WellShaped(f: Fields) {
    && TwoDigits(f.month) && TwoDigits(f.day)
    && TwoDigits(f.hour) && TwoDigits(f.minute) && TwoDigits(f.second)
    && (f.fraction.Some? ==> f.fraction.value != [] && AllDigits(f.fraction.value))
  }

  predicate WellShapedZone(zone: Zone) {
    zone.Shifted? ==> TwoDigits(zone.hours) && TwoDigits(zone.minutes)
  }

  function SpellZone(zone: Zone): string {
    match zone
    case Unzoned => ""
    case Utc => "Z"
    case Shifted(negative, hours, minutes) =>
      [if negative then '-' else '+'] + (hours + (":" + minutes))
  }

  function SpellFraction(fraction: Option<string>): string {
    match fraction
    case None => ""
    case Some(digits) => "." + digits
  }

  function SpellAfterYear(f: Fields, zone: string): string {
    f.month + ("-" + (f.day + ("T" + (f.hour + (":" + (f.minute + (":" + (f.second
    + (SpellFraction(f.fraction) + zone)))))))))
  }

  function Spell(f: Fields, zone: string): string {
    (if f.negative then "-" else "") + (f.year + ("-" + SpellAfterYear(f, zone)))
  }

  function ZoneMinutes(zone: Zone): Option<Option<int>>
    requires WellShapedZone(zone)
  {
    match zone
    case Unzoned => Some(None)
    case Utc => Some(Some(0))
    case Shifted(negative, hours, minutes) => OffsetOf(negative, NatOf(hours), NatOf(minutes), "")
  }

  function Nanoseconds(fraction: Option<string>): nat
    requires fraction.Some? ==> AllDigits(fraction.value)
  {
    if fraction.Some? then NatOf(NineDigits(fraction.value)) else 0
  }

  function FieldsAt(f: Fields, year: int, offset: Option<int>): Option<DateTime>
    requires WellShaped(f) && InI32(year)
  {
    Assemble(year, NatOf(f.month), NatOf(f.day), NatOf(f.hour), NatOf(f.minute), NatOf(f.second),
             Nanoseconds(f.fraction), offset)
  }

  /** The timestamp a well-shaped text denotes, where it denotes one. */
  function Denotes(f: Fields, zone: Zone): Option<DateTime>
    requires WellShaped(f) && WellShapedZone(zone)
  {
    var year :- ParseYear(f.negative, f.year);
    var offset :- ZoneMinutes(zone);
    FieldsAt(f, year, offset)
  }

  // ---- the reader reads exactly the lexical form ------------------------------

  lemma TakesTwo(two: string, rest: string)
    requires TwoDigits(two)
    ensures TakeFixedDigits(two + rest, 2) == Some((NatOf(two), rest))
  {
    assert (two + rest)[..2] == two;
    assert (two + rest)[2..] == rest;
  }

  lemma Strips(c: char, rest: string)
    ensures StripPrefix([c] + rest, c) == Some(rest)
  {
  }

  lemma {:induction false} SplitsAt(head: string, c: char, tail: string)
    requires c !in head
    ensures SplitOnce(head + ([c] + tail), c) == Some((head, tail))
  {
    var s := head + ([c] + tail);
    if head != [] {
      assert s[1..] == head[1..] + ([c] + tail);
      SplitsAt(head[1..], c, tail);
      assert [s[0]] + head[1..] == head;
    } else {
      assert s == [c] + tail;
    }
  }

  lemma {:induction false} RunsThrough(digits: string, rest: string)
    requires AllDigits(digits)
    requires rest == [] || !IsDigit(rest[0])
    ensures DigitRun(digits + rest) == |digits|
  {
    if digits != [] {
      assert (digits + rest)[1..] == digits[1..] + rest;
      RunsThrough(digits[1..], rest);
    } else {
      assert digits + rest == rest;
    }
  }

  lemma ReadsShift(negative: bool, hours: string, minutes: string)
    requires TwoDigits(hours) && TwoDigits(minutes)
    ensures ParseOffset([if negative then '-' else '+'] + (hours + (":" + minutes)))
         == OffsetOf(negative, NatOf(hours), NatOf(minutes), "")
  {
    TakesTwo(hours, ":" + minutes);
    Strips(':', minutes);
    assert minutes + "" == minutes;
    TakesTwo(minutes, "");
  }

  lemma ReadsFraction(fraction: Option<string>, zone: string)
    requires fraction.Some? ==> fraction.value != [] && AllDigits(fraction.value)
    requires zone == "" || (!IsDigit(zone[0]) && zone[0] != '.')
    ensures ParseFraction(SpellFraction(fraction) + zone) == Some((Nanoseconds(fraction), zone))
  {
    match fraction
    case None =>
      assert "" + zone == zone;
    case Some(digits) =>
      assert "." + digits + zone == "." + (digits + zone);
      RunsThrough(digits, zone);
      assert (digits + zone)[..|digits|] == digits;
      assert (digits + zone)[|digits|..] == zone;
  }

  /** The fields are read as themselves, whatever zone text follows them. */
  lemma ReadsAfterYear(f: Fields, zone: string, year: int)
    requires WellShaped(f) && InI32(year)
    requires zone == "" || (!IsDigit(zone[0]) && zone[0] != '.')
    ensures ParseAfterYear(year, SpellAfterYear(f, zone))
         == (match ParseOffset(zone) case None => None case Some(offset) => FieldsAt(f, year, offset))
  {
    var tail := SpellFraction(f.fraction) + zone;
    var fromMinute := f.minute + (":" + (f.second + tail));
    var fromHour := f.hour + (":" + fromMinute);
    var fromDay := f.day + ("T" + fromHour);
    TakesTwo(f.month, "-" + fromDay);
    Strips('-', fromDay);
    TakesTwo(f.day, "T" + fromHour);
    Strips('T', fromHour);
    TakesTwo(f.hour, ":" + fromMinute);
    Strips(':', fromMinute);
    TakesTwo(f.minute, ":" + (f.second + tail));
    Strips(':', f.second + tail);
    TakesTwo(f.second, tail);
    ReadsFraction(f.fraction, zone);
    hide Assemble, TakeFixedDigits, StripPrefix, ParseFraction, ParseOffset, SpellFraction;
  }

  lemma ReadsYear(f: Fields, zone: string)
    requires f.year != [] && AllDigits(f.year)
    ensures ParseXsDateTime(Spell(f, zone))
         == (match ParseYear(f.negative, f.year)
             case None => None
             case Some(year) => ParseAfterYear(year, SpellAfterYear(f, zone)))
  {
    var after := f.year + ("-" + SpellAfterYear(f, zone));
    assert Spell(f, zone) == if f.negative then "-" + after else after;
    assert IsDigit(f.year[0]) && after[0] == f.year[0];
    if f.negative {
      Strips('-', after);
    }
    SplitsAt(f.year, '-', SpellAfterYear(f, zone));
    hide ParseYear, ParseAfterYear, SpellAfterYear;
  }

  /** Every well-shaped text is read as what it denotes, refusals included. */
  lemma ReadsSpelling(f: Fields, zone: Zone)
    requires WellShaped(f) && WellShapedZone(zone)
    requires f.year != [] && AllDigits(f.year)
    ensures ParseXsDateTime(Spell(f, SpellZone(zone))) == Denotes(f, zone)
  {
    ReadsYear(f, SpellZone(zone));
    var year := ParseYear(f.negative, f.year);
    if zone.Shifted? {
      ReadsShift(zone.negative, zone.hours, zone.minutes);
    }
    if year.Some? {
      ReadsAfterYear(f, SpellZone(zone), year.value);
    }
    hide ParseAfterYear, ParseYear, FieldsAt, Spell, SpellAfterYear;
  }

  lemma TakenTwo(s: string)
    requires TakeFixedDigits(s, 2).Some?
    ensures TwoDigits(s[..2]) && s == s[..2] + s[2..]
  {
  }

  lemma ShapeOfField(s: string, c: char)
    requires TakeFixedDigits(s, 2).Some? && StripPrefix(s[2..], c).Some?
    ensures |s| >= 3 && TwoDigits(s[..2])
    ensures StripPrefix(s[2..], c) == Some(s[3..])
    ensures s == s[..2] + ([c] + s[3..])
  {
  }

  lemma ShapeOfOffset(s: string) returns (zone: Zone)
    requires ParseOffset(s).Some?
    ensures WellShapedZone(zone) && s == SpellZone(zone)
  {
    if s == "" {
      zone := Unzoned;
    } else if s == "Z" {
      zone := Utc;
    } else {
      var rest := s[1..];
      TakenTwo(rest);
      TakenTwo(rest[3..]);
      zone := Shifted(s[0] == '-', rest[..2], rest[3..5]);
      assert rest == rest[..2] + (":" + rest[3..5]);
    }
  }

  lemma ShapeOfFraction(s: string) returns (fraction: Option<string>)
    requires ParseFraction(s).Some?
    ensures fraction.Some? ==> fraction.value != [] && AllDigits(fraction.value)
    ensures s == SpellFraction(fraction) + ParseFraction(s).value.1
  {
    if StripPrefix(s, '.').None? {
      fraction := None;
    } else {
      fraction := Some(s[1..][..DigitRun(s[1..])]);
    }
  }

  lemma ShapeAfterYear(s: string, year: int) returns (f: Fields, zone: Zone)
    requires InI32(year) && ParseAfterYear(year, s).Some?
    ensures WellShaped(f) && WellShapedZone(zone) && s == SpellAfterYear(f, SpellZone(zone))
  {
    hide Assemble, ParseFraction, ParseOffset, SpellFraction, SpellZone, StripPrefix, TakeFixedDigits;
    ShapeOfField(s, '-');
    var fromDay := s[3..];
    ShapeOfField(fromDay, 'T');
    var fromHour := fromDay[3..];
    ShapeOfField(fromHour, ':');
    var fromMinute := fromHour[3..];
    ShapeOfField(fromMinute, ':');
    var fromSecond := fromMinute[3..];
    TakenTwo(fromSecond);
    var tail := fromSecond[2..];
    var fraction := ShapeOfFraction(tail);
    zone := ShapeOfOffset(ParseFraction(tail).value.1);
    f := Fields(false, "", s[..2], fromDay[..2], fromHour[..2], fromMinute[..2], fromSecond[..2], fraction);
  }

  lemma ShapeOfText(s: string) returns (f: Fields, zone: Zone)
    requires ParseXsDateTime(s).Some?
    ensures WellShaped(f) && WellShapedZone(zone) && f.year != [] && AllDigits(f.year)
    ensures s == Spell(f, SpellZone(zone))
  {
    var negative := StripPrefix(s, '-').Some?;
    var body := if negative then s[1..] else s;
    var (yearText, rest) := SplitOnce(body, '-').value;
    var year := ParseYear(negative, yearText).value;
    f, zone := ShapeAfterYear(rest, year);
    f := f.(negative := negative, year := yearText);
    hide ParseAfterYear, SpellZone;
    assert SpellAfterYear(f, SpellZone(zone)) == rest;
    assert s == (if negative then "-" else "") + body;
  }

  // ---- what is read is valid, and what is written is read back -----------------

  predicate OffsetAllowed(offset: Option<int>) {
    offset.Some? ==> -MAX_OFFSET <= offset.value <= MAX_OFFSET
  }

  lemma NextDayIsNextDate(n: int)
    ensures NthDate(n + 1) == NextDate(NthDate(n))
  {
    hide NextDate, PreviousDate, ValidDate;
  }

  const LAST_DAY := Date(I32_MAX, 12, 31)

  lemma OnlyTheLastDayOverflows(d: Date)
    requires ValidDate(d) && InI32(d.year)
    ensures InI32(NextDate(d).year) <==> d != LAST_DAY
    ensures d == LAST_DAY ==> NextDate(d) == Date(I32_MAX + 1, 1, 1)
  {
  }

  lemma DayAfter(n: int)
    requires InI32(NthDate(n).year)
    ensures CivilFromDays(n + 1)
         == if NthDate(n) == LAST_DAY then Date(I32_MIN, 1, 1) else NextDate(NthDate(n))
  {
    NextDayIsNextDate(n);
    OnlyTheLastDayOverflows(NthDate(n));
    ClosedFormIsCalendar(n + 1);
    hide NthDate, DateOfDay, NextDate, ValidDate;
  }

  /** Midnight ending a day is the start of the calendar's next day, while its year exists. */
  lemma RolloverIsNextDate(d: Date)
    requires ValidDate(d) && -I32_MAX <= d.year <= I32_MAX
    ensures CivilFromDays(DaysFromCivil(d) + 1)
         == if d == LAST_DAY then Date(I32_MIN, 1, 1) else NextDate(d)
  {
    hide DaysFromCivil, CivilFromDays, NthDate, NextDate;
    CompiledDayNumberIsExact(d);
    DayAfter(DaysFromCivil(d));
  }

  // ---- what a text means, by the schema and the calendar -----------------------------

  /** At least four digits, more only where they are needed, and no more than the type holds. */
  predicate WritesYear(text: string) {
    |text| >= 4 && AllDigits(text) && (|text| > 4 ==> text[0] != '0') && NatOf(text) <= I32_MAX
  }

  /** An offset of up to fourteen hours, written in hours and minutes. */
  predicate WritesOffset(zone: Zone, offset: Option<int>)
    requires WellShapedZone(zone)
  {
    match zone
    case Unzoned => offset == None
    case Utc => offset == Some(0)
    case Shifted(negative, hours, minutes) =>
      var total := NatOf(hours) * 60 + NatOf(minutes);
      NatOf(minutes) <= 59 && total <= 14 * 60 && offset == Some(if negative then -total else total)
  }

  /** The calendar's next date; the last one that fits wraps round. */
  function FollowingDate(d: Date): Date
    requires ValidDate(d)
  {
    if d == LAST_DAY then Date(I32_MIN, 1, 1) else NextDate(d)
  }

  /** The hour is on the clock, or it is the midnight that ends the day. */
  predicate WritesHour(hour: nat, midnight: bool, d: Date, t: DateTime)
    requires ValidDate(d)
  {
    if hour < 24 then t.hour == hour && t.CivilDate() == d
    else hour == 24 && midnight && t.hour == 0 && t.CivilDate() == FollowingDate(d)
  }

  /** The date written, in years of the proleptic calendar. */
  function DateWritten(f: Fields): Date
    requires WellShaped(f) && WritesYear(f.year)
  {
    var year: int := NatOf(f.year);
    Date(if f.negative then -year else year, NatOf(f.month), NatOf(f.day))
  }

  predicate WritesClock(f: Fields, d: Date, t: DateTime)
    requires WellShaped(f) && ValidDate(d)
  {
    var minute, second, nanosecond := NatOf(f.minute), NatOf(f.second), Nanoseconds(f.fraction);
    && minute <= 59 && second <= 59
    && t.minute == minute && t.second == second && t.nanosecond == nanosecond
    && WritesHour(NatOf(f.hour), minute == second == nanosecond == 0, d, t)
  }

  /** Whether fields and zone stand for a timestamp. */
  predicate Means(f: Fields, zone: Zone, t: DateTime) {
    && WellShaped(f) && WellShapedZone(zone) && WritesYear(f.year) && ValidDate(DateWritten(f))
    && WritesClock(f, DateWritten(f), t) && WritesOffset(zone, t.offsetMinutes)
  }

  lemma YearsAreRead(f: Fields)
    requires WellShaped(f)
    ensures ParseYear(f.negative, f.year)
         == if WritesYear(f.year) then Some(DateWritten(f).year) else None
  {
    hide AllDigits, NatOf;
  }

  lemma OffsetsAreRead(zone: Zone, offset: Option<int>)
    requires WellShapedZone(zone)
    ensures ZoneMinutes(zone) == Some(offset) <==> WritesOffset(zone, offset)
  {
    hide AllDigits, NatOf;
  }

  lemma AssembledMeans(year: int, month: nat, day: nat, hour: nat, minute: nat, second: nat, nanosecond: nat,
                       offset: Option<int>, t: DateTime)
    requires -I32_MAX <= year <= I32_MAX
    ensures var d, midnight := Date(year, month, day), minute == second == nanosecond == 0;
            (Assemble(year, month, day, hour, minute, second, nanosecond, offset) == Some(t)
             <==> && ValidDate(d) && minute <= 59 && second <= 59 && WritesHour(hour, midnight, d, t)
                  && t.minute == minute && t.second == second && t.nanosecond == nanosecond && t.offsetMinutes == offset)
  {
    hide ValidDate, DaysFromCivil, CivilFromDays, NextDate;
    if ValidDate(Date(year, month, day)) {
      RolloverIsNextDate(Date(year, month, day));
    }
  }

  lemma ClockIsRead(f: Fields, year: int, offset: Option<int>, t: DateTime)
    requires WellShaped(f) && -I32_MAX <= year <= I32_MAX
    ensures var d := Date(year, NatOf(f.month), NatOf(f.day));
            (FieldsAt(f, year, offset) == Some(t)
             <==> ValidDate(d) && WritesClock(f, d, t) && t.offsetMinutes == offset)
  {
    hide NatOf, AllDigits, Nanoseconds, ValidDate, Assemble, WritesHour;
    AssembledMeans(year, NatOf(f.month), NatOf(f.day), NatOf(f.hour), NatOf(f.minute), NatOf(f.second),
                   Nanoseconds(f.fraction), offset, t);
  }

  /** The reader's own year, offset and rollover give what the schema and the calendar say. */
  lemma DenotesIsMeaning(f: Fields, zone: Zone, t: DateTime)
    requires WellShaped(f) && WellShapedZone(zone)
    ensures Denotes(f, zone) == Some(t) <==> Means(f, zone, t)
  {
    hide NatOf, AllDigits, ValidDate, WritesClock, WritesOffset, WritesYear, FieldsAt, ZoneMinutes, ParseYear;
    YearsAreRead(f);
    OffsetsAreRead(zone, t.offsetMinutes);
    if WritesYear(f.year) {
      var year := DateWritten(f).year;
      YearWrittenFits(f);
      if ZoneMinutes(zone).Some? {
        ClockIsRead(f, year, ZoneMinutes(zone).value, t);
      }
    }
  }

  lemma YearWrittenFits(f: Fields)
    requires WellShaped(f) && WritesYear(f.year)
    ensures -I32_MAX <= DateWritten(f).year <= I32_MAX
  {
    hide NatOf, AllDigits;
  }

  /** The reader accepts exactly the texts of the lexical form that mean a timestamp, and reads it. */
  lemma ReaderIsTheLexicalForm(s: string, t: DateTime)
    ensures ParseXsDateTime(s) == Some(t)
       <==> exists f: Fields, zone: Zone :: Means(f, zone, t) && s == Spell(f, SpellZone(zone))
  {
    hide ParseXsDateTime, Spell, SpellZone, Denotes, WritesYear, WritesClock, WritesOffset, ValidDate, DateWritten;
    if ParseXsDateTime(s) == Some(t) {
      var f, zone := ShapeOfText(s);
      ReadsSpelling(f, zone);
      DenotesIsMeaning(f, zone, t);
    }
    forall f: Fields, zone: Zone | Means(f, zone, t) && s == Spell(f, SpellZone(zone))
      ensures ParseXsDateTime(s) == Some(t)
    {
      YearIsDigits(f.year);
      ReadsSpelling(f, zone);
      DenotesIsMeaning(f, zone, t);
    }
  }

  lemma YearIsDigits(text: string)
    requires WritesYear(text)
    ensures text != [] && AllDigits(text)
  {
  }

  predicate Acceptable(t: Option<DateTime>) {
    t.Some? ==> t.value.Valid() && OffsetAllowed(t.value.offsetMinutes)
  }

  /** Whatever is accepted is a valid timestamp, with its offset in the permitted range. */
  lemma AcceptedIsValid(s: string)
    ensures Acceptable(ParseXsDateTime(s))
  {
    if ParseXsDateTime(s).Some? {
      hide *;
      var f, zone := ShapeOfText(s);
      ReadsSpelling(f, zone);
      DenotedIsValid(f, zone);
    }
  }

  lemma DenotedIsValid(f: Fields, zone: Zone)
    requires WellShaped(f) && WellShapedZone(zone)
    ensures Acceptable(Denotes(f, zone))
  {
    var year, offset := ParseYear(f.negative, f.year), ZoneMinutes(zone);
    NanosecondsBound(f.fraction);
    hide AllDigits, NatOf, Nanoseconds, ValidDate, Assemble, Acceptable;
    if year.Some? && offset.Some? {
      assert -I32_MAX <= year.value <= I32_MAX && OffsetAllowed(offset.value);
      AssembledIsValid(year.value, NatOf(f.month), NatOf(f.day), NatOf(f.hour), NatOf(f.minute),
                       NatOf(f.second), Nanoseconds(f.fraction), offset.value);
    } else {
      NothingIsAcceptable();
    }
  }

  lemma NothingIsAcceptable()
    ensures Acceptable(None)
  {
  }

  lemma NanosecondsBound(fraction: Option<string>)
    requires fraction.Some? ==> AllDigits(fraction.value)
    ensures Nanoseconds(fraction) < 1_000_000_000
  {
    if fraction.Some? {
      NatOfBound(NineDigits(fraction.value));
      TenToTheNinth();
    }
  }

  lemma RolloverIsValid(d: Date)
    requires ValidDate(d) && -I32_MAX <= d.year <= I32_MAX
    ensures ValidDate(CivilFromDays(DaysFromCivil(d) + 1))
  {
    assert ValidDate(Date(I32_MIN, 1, 1));
    RolloverIsNextDate(d);
    hide CivilFromDays, DaysFromCivil, NextDate, ValidDate;
  }

  lemma AssembledIsValid(year: int, month: nat, day: nat, hour: nat, minute: nat, second: nat,
                         nanosecond: nat, offset: Option<int>)
    requires -I32_MAX <= year <= I32_MAX && nanosecond < 1_000_000_000 && OffsetAllowed(offset)
    ensures Acceptable(Assemble(year, month, day, hour, minute, second, nanosecond, offset))
  {
    hide CivilFromDays, DaysFromCivil, ValidDate, MarchYear;
    if ValidDate(Date(year, month, day)) {
      RolloverIsValid(Date(year, month, day));
    }
  }

  /** `ending` is midnight of the day after `starting`, and exists just when it does. */
  predicate MidnightAfter(starting: Option<DateTime>, ending: Option<DateTime>) {
    if starting.None? then ending.None?
    else
      var d := starting.value.CivilDate();
      && ending.Some? && ValidDate(d)
      && (d != LAST_DAY ==>
            var next := NextDate(d);
            ending.value == starting.value.(year := next.year, month := next.month, day := next.day))
  }

  /** `24:00:00` reads as `00:00:00` of the calendar's next day, while that day's year exists. */
  lemma MidnightEndingTheDay(f: Fields, zone: Zone)
    requires WellShaped(f) && WellShapedZone(zone) && f.year != [] && AllDigits(f.year)
    requires NatOf(f.hour) == 24 && NatOf(f.minute) == NatOf(f.second) == Nanoseconds(f.fraction) == 0
    ensures MidnightAfter(ParseXsDateTime(Spell(f.(hour := "00"), SpellZone(zone))),
                          ParseXsDateTime(Spell(f, SpellZone(zone))))
  {
    hide ParseXsDateTime, Spell, SpellZone;
    ReadsSpelling(f, zone);
    ReadsSpelling(f.(hour := "00"), zone);
    DenotedMidnight(f, zone);
  }

  lemma DenotedMidnight(f: Fields, zone: Zone)
    requires WellShaped(f) && WellShapedZone(zone)
    requires NatOf(f.hour) == 24 && NatOf(f.minute) == NatOf(f.second) == Nanoseconds(f.fraction) == 0
    ensures MidnightAfter(Denotes(f.(hour := "00"), zone), Denotes(f, zone))
  {
    var year, offset := ParseYear(f.negative, f.year), ZoneMinutes(zone);
    assert NatOf("00") == 0;
    assert MidnightAfter(None, None);
    hide NatOf, AllDigits, Assemble, MidnightAfter, ParseYear, ZoneMinutes, Nanoseconds;
    if year.Some? && offset.Some? {
      RollsOver(year.value, NatOf(f.month), NatOf(f.day), offset.value);
    }
  }

  lemma RollsOver(year: int, month: nat, day: nat, offset: Option<int>)
    requires -I32_MAX <= year <= I32_MAX
    ensures MidnightAfter(Assemble(year, month, day, 0, 0, 0, 0, offset),
                          Assemble(year, month, day, 24, 0, 0, 0, offset))
  {
    hide CivilFromDays, DaysFromCivil, NextDate, ValidDate;
    if ValidDate(Date(year, month, day)) {
      RolloverIsNextDate(Date(year, month, day));
    }
  }

  function Canonical(t: DateTime): Fields
    requires t.Valid()
  {
    Fields(t.year < 0, Padded(if t.year < 0 then -t.year else t.year, 4),
           Padded(t.month, 2), Padded(t.day, 2),
           Padded(t.hour, 2), Padded(t.minute, 2), Padded(t.second, 2),
           if t.nanosecond > 0 then Some(TrimZeros(Padded(t.nanosecond, 9))) else None)
  }

  lemma PaddedPair(n: nat)
    requires n < 100
    ensures TwoDigits(Padded(n, 2)) && NatOf(Padded(n, 2)) == n
  {
    TenToTheNinth();
    PaddedReadsBack(n, 2);
  }

  lemma ReadsPrintedZone(offset: Option<int>)
    requires offset.Some? ==> InI16(offset.value)
    ensures ParseOffset(ZoneText(offset)) == if OffsetAllowed(offset) then Some(offset) else None
  {
    if offset.Some? && offset.value != 0 {
      var minutes := offset.value;
      ReadsPrintedShift(minutes < 0, if minutes < 0 then -minutes else minutes);
    }
    hide Padded;
  }

  lemma ReadsPrintedShift(negative: bool, magnitude: nat)
    ensures ParseOffset([if negative then '-' else '+']
                        + (Padded(magnitude / 60, 2) + (":" + Padded(magnitude % 60, 2))))
         == if magnitude > MAX_OFFSET then None
            else Some(Some(if negative then -(magnitude as int) else magnitude))
  {
    var sign := [if negative then '-' else '+'];
    var hours := magnitude / 60;
    hide Padded, ParseOffset, AllDigits, NatOf;
    PaddedPair(magnitude % 60);
    if hours < 100 {
      PaddedPair(hours);
      ReadsShift(negative, Padded(hours, 2), Padded(magnitude % 60, 2));
    } else {
      LongNumber(hours);
      LongHoursAreRefused(sign, Padded(hours, 2), ":" + Padded(magnitude % 60, 2));
    }
  }

  lemma LongNumber(n: nat)
    requires n >= 100
    ensures |Padded(n, 2)| > 2 && AllDigits(Padded(n, 2))
  {
    TenToTheNinth();
    PaddedReadsBack(n, 2);
  }

  lemma LongHoursAreRefused(sign: string, hours: string, rest: string)
    requires sign == "+" || sign == "-"
    requires |hours| > 2 && AllDigits(hours)
    ensures ParseOffset(sign + (hours + rest)) == None
  {
    var s := sign + (hours + rest);
    assert s[1..] == hours + rest;
    assert s[1..][2..][0] == hours[2];
    assert StripPrefix(s[1..][2..], ':') == None;
  }

  lemma ReadsPrintedYear(year: int)
    requires InI32(year)
    ensures ParseYear(year < 0, Padded(if year < 0 then -year else year, 4))
         == if year == I32_MIN then None else Some(year)
  {
    PaddedReadsBack(if year < 0 then -year else year, 4);
  }

  lemma CanonicalIsWellShaped(t: DateTime)
    requires t.Valid()
    ensures WellShaped(Canonical(t))
    ensures FieldsAt(Canonical(t), t.year, t.offsetMinutes) == Some(t)
  {
    assert t.day <= 31;
    hide ValidDate;
    PaddedPair(t.month);
    PaddedPair(t.day);
    PaddedPair(t.hour);
    PaddedPair(t.minute);
    PaddedPair(t.second);
    if t.nanosecond > 0 {
      TrimmedNanosReadBack(t.nanosecond);
    }
    hide Padded, NatOf, NineDigits, TrimZeros, AllDigits;
  }

  lemma PrintIsSpelling(t: DateTime)
    requires t.Valid()
    ensures Print(t) == Spell(Canonical(t), ZoneText(t.offsetMinutes))
  {
    hide Padded, ZoneText, TrimZeros;
  }

  /** Writing a timestamp and reading the text gives it back, exactly within these bounds. */
  lemma PrintedReadsBack(t: DateTime)
    requires t.Valid()
    ensures ParseXsDateTime(Print(t)) == Some(t)
       <==> t.year != I32_MIN && OffsetAllowed(t.offsetMinutes)
  {
    var f := Canonical(t);
    var zone := ZoneText(t.offsetMinutes);
    PrintIsSpelling(t);
    CanonicalIsWellShaped(t);
    ReadsYear(f, zone);
    ReadsPrintedYear(t.year);
    ReadsPrintedZone(t.offsetMinutes);
    ReadsAfterYear(f, zone, t.year);
    hide Print, Spell, SpellAfterYear, ParseXsDateTime, ParseAfterYear, ParseYear, FieldsAt, Padded, ZoneText;
  }
}
