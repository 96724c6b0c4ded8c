/**
 The canonical form timestamps are written in, src/model/time.rs, section 3.2.7.2 of XML Schema
 Part 2: what it looks like, and that every timestamp has exactly one text of that form.
 */
module TimestampForm {
  import opened Wrappers
  import opened Calendar
  import opened Timestamp
  import opened Decimal
  import opened DecimalForms
  import opened TimestampText

  /**
   The hour is on the clock, no fraction ends in a zero, the year zero has no sign, and an offset of
   nothing is written as `Z`.
   */
  predicate Normal(f: Fields, zone: Zone)
    requires WellShaped(f) && WellShapedZone(zone) && WritesYear(f.year)
  {
    && NatOf(f.hour) < 24
    && (f.fraction.Some? ==> Trimmed(f.fraction.value))
    && (f.negative ==> NatOf(f.year) > 0)
    && (zone.Shifted? ==> NatOf(zone.hours) > 0 || NatOf(zone.minutes) > 0)
  }

  lemma PairIsPadded(s: string)
    requires TwoDigits(s)
    ensures s == Padded(NatOf(s), 2) && NatOf(s) < 100
  {
    hide Padded, NatOf, Pow10;
    TenToTheNinth();
    NatOfBound(s);
    PaddedReadsBack(NatOf(s), 2);
    SameNumberSameDigits(s, Padded(NatOf(s), 2));
  }

  lemma YearIsPadded(s: string)
    requires WritesYear(s)
    ensures s == Padded(NatOf(s), 4)
  {
    hide NatOf, Digits;
    if |s| == 4 {
      hide Padded;
      NatOfBound(s);
      PaddedReadsBack(NatOf(s), 4);
      SameNumberSameDigits(s, Padded(NatOf(s), 4));
    } else {
      ShortestIsDigits(s);
    }
  }

  lemma ZoneIsPrinted(zone: Zone, offset: Option<int>)
    requires WellShapedZone(zone) && WritesOffset(zone, offset)
    requires zone.Shifted? ==> NatOf(zone.hours) > 0 || NatOf(zone.minutes) > 0
    ensures SpellZone(zone) == ZoneText(offset)
  {
    hide NatOf, Padded, AllDigits;
    if zone.Shifted? {
      PairIsPadded(zone.hours);
      PairIsPadded(zone.minutes);
      var total := NatOf(zone.hours) * 60 + NatOf(zone.minutes);
      DivUnique(total, 60, NatOf(zone.hours));
    }
  }

  lemma FractionIsPrinted(fraction: Option<string>)
    requires fraction.Some? ==> Trimmed(fraction.value)
    ensures var n := Nanoseconds(fraction);
            fraction == if n > 0 then Some(TrimZeros(Padded(n, 9))) else None
  {
    hide NatOf, Padded, TrimZeros, NineDigits;
    if fraction.Some? {
      TrimmedIsWritten(fraction.value);
    }
  }

  /** A text in canonical form that means the timestamp is the one written. */
  lemma NormalIsPrinted(f: Fields, zone: Zone, t: DateTime)
    requires t.Valid() && Means(f, zone, t) && Normal(f, zone)
    ensures Spell(f, SpellZone(zone)) == Print(t)
  {
    hide NatOf, Padded, AllDigits, TrimZeros, NineDigits, Spell, Print, ValidDate, ZoneText, SpellZone;
    PairIsPadded(f.month);
    PairIsPadded(f.day);
    PairIsPadded(f.hour);
    PairIsPadded(f.minute);
    PairIsPadded(f.second);
    YearIsPadded(f.year);
    FractionIsPrinted(f.fraction);
    ZoneIsPrinted(zone, t.offsetMinutes);
    assert f == Canonical(t);
    PrintIsSpelling(t);
  }

  /** The zone a timestamp is written with. */
  function ZoneOf(offset: Option<int>): Zone {
    match offset
    case None => Unzoned
    case Some(minutes) =>
      var magnitude := if minutes < 0 then -minutes else minutes;
      if minutes == 0 then Utc else Shifted(minutes < 0, Padded(magnitude / 60, 2), Padded(magnitude % 60, 2))
  }

  lemma PrintedZoneIsNormal(offset: Option<int>)
    requires OffsetAllowed(offset)
    ensures var zone := ZoneOf(offset);
            && WellShapedZone(zone) && WritesOffset(zone, offset) && SpellZone(zone) == ZoneText(offset)
            && (zone.Shifted? ==> NatOf(zone.hours) > 0 || NatOf(zone.minutes) > 0)
  {
    hide Padded, NatOf;
    if offset.Some? && offset.value != 0 {
      var magnitude := if offset.value < 0 then -offset.value else offset.value;
      PaddedPair(magnitude / 60);
      PaddedPair(magnitude % 60);
    }
  }

  lemma PrintedMeans(t: DateTime)
    requires t.Valid() && t.year != I32_MIN && OffsetAllowed(t.offsetMinutes)
    ensures WellShapedZone(ZoneOf(t.offsetMinutes)) && Means(Canonical(t), ZoneOf(t.offsetMinutes), t)
  {
    CanonicalIsWellShaped(t);
    PrintedZoneIsNormal(t.offsetMinutes);
    ReadsPrintedYear(t.year);
    hide *;
    OffsetsAreRead(ZoneOf(t.offsetMinutes), t.offsetMinutes);
    DenotesIs(Canonical(t), ZoneOf(t.offsetMinutes), t.year, t.offsetMinutes);
    DenotesIsMeaning(Canonical(t), ZoneOf(t.offsetMinutes), t);
  }

  /** What is written is in canonical form, and means the timestamp. */
  lemma PrintedIsNormal(t: DateTime)
    requires t.Valid() && t.year != I32_MIN && OffsetAllowed(t.offsetMinutes)
    ensures var f, zone := Canonical(t), ZoneOf(t.offsetMinutes);
            Means(f, zone, t) && Normal(f, zone) && Print(t) == Spell(f, SpellZone(zone))
  {
    PrintIsSpelling(t);
    PrintedMeans(t);
    PrintedZoneIsNormal(t.offsetMinutes);
    PaddedPair(t.hour);
    if t.nanosecond > 0 {
      WrittenIsTrimmed(t.nanosecond);
    }
    if t.year < 0 {
      YearIsNotZero(t.year);
    }
    hide Print, Spell, ZoneText, SpellZone, ZoneOf, Padded, NatOf, TrimZeros, FieldsAt, ValidDate, WritesClock, WritesOffset;
  }

  lemma DenotesIs(f: Fields, zone: Zone, year: int, offset: Option<int>)
    requires WellShaped(f) && WellShapedZone(zone)
    requires ParseYear(f.negative, f.year) == Some(year) && ZoneMinutes(zone) == Some(offset)
    ensures Denotes(f, zone) == FieldsAt(f, year, offset)
  {
  }

  lemma YearIsNotZero(year: int)
    requires InI32(year) && year < 0
    ensures NatOf(Padded(-year, 4)) > 0
  {
    PaddedReadsBack(-year, 4);
  }
}
