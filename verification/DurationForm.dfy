/**
 The normal form durations are written in, src/model/time.rs: what it looks like, that every
 duration has exactly one text of that form, and what a week is read as.
 */
module DurationForm {
  import opened Wrappers
  import opened Decimal
  import opened DecimalForms
  import opened TimestampText
  import opened DurationText
  import Timestamp
  import Calendar

  // ---- the normal form ----------------------------------------------------------

  /** A number that is not zero, below the limit if there is one, in its shortest form. */
  predicate Counted(c: Component, unit: char, below: nat) {
    && c.unit == unit && Shortest(c.number) && 0 < NatOf(c.number)
    && (below > 0 ==> NatOf(c.number) < below)
  }

  /** Seconds below a minute, with a fraction cut short of its zeros or none; not zero, unless it may be. */
  predicate Clocked(c: Component, zero: bool) {
    && c.unit == 'S' && Shortest(WholePart(c.number)) && NatOf(WholePart(c.number)) < 60
    && (if '.' in c.number then Trimmed(FractionPart(c.number)) else zero || NatOf(WholePart(c.number)) > 0)
  }

  function Place(c: Component): nat {
    match c.unit
    case 'H' => 0
    case 'M' => 1
    case _ => 2
  }

  predicate Ordered(cs: seq<Component>) {
    forall i, j :: 0 <= i < j < |cs| ==> Place(cs[i]) < Place(cs[j])
  }

  predicate Timed(c: Component, zero: bool) {
    Counted(c, 'H', 24) || Counted(c, 'M', 60) || Clocked(c, zero)
  }

  predicate AllTimed(cs: seq<Component>, zero: bool) {
    forall i :: 0 <= i < |cs| ==> Timed(cs[i], zero)
  }

  /**
   Days, then hours below 24, minutes below 60 and seconds below 60: each at most once, in that
   order, and none that is zero but the seconds of a text that says nothing else.
   */
  predicate Normal(t: Spelled) {
    && !t.negative
    && (t.date == [] || (|t.date| == 1 && Counted(t.date[0], 'D', 0)))
    && (t.date == [] ==> t.time.Some?)
    && (t.time.Some? ==>
          var cs := t.time.value;
          cs != [] && Ordered(cs) && AllTimed(cs, t.date == [] && |cs| == 1))
  }

  // ---- what is written is in normal form --------------------------------------------

  lemma WrittenNumberIsCounted(n: nat, unit: char, below: nat)
    requires 0 < n && (below > 0 ==> n < below)
    ensures Counted(Component(Digits(n), unit), unit, below)
  {
    DigitsAreShortest(n);
  }

  lemma WrittenSecondsAreClocked(seconds: nat, nanos: nat, zero: bool)
    requires seconds < 60 && nanos < 1_000_000_000 && (zero || seconds > 0 || nanos > 0)
    ensures Clocked(Component(SecondsNumber(seconds, nanos), 'S'), zero)
  {
    DigitsAreShortest(seconds);
    hide Digits, NatOf, TrimZeros, Padded;
    if nanos > 0 {
      WrittenIsTrimmed(nanos);
      SplitsAt(Digits(seconds), '.', TrimZeros(Padded(nanos, 9)));
      var number := SecondsNumber(seconds, nanos);
      assert number[|Digits(seconds)|] == '.';
    } else {
      DoesNotSplit(Digits(seconds), '.');
    }
  }

  lemma PutInFront(c: Component, cs: seq<Component>, zero: bool)
    requires Timed(c, zero) && AllTimed(cs, zero) && Ordered(cs)
    requires forall i :: 0 <= i < |cs| ==> Place(c) < Place(cs[i])
    ensures AllTimed([c] + cs, zero) && Ordered([c] + cs)
  {
    hide Timed, Place;
    assert forall i :: 0 < i < |[c] + cs| ==> ([c] + cs)[i] == cs[i - 1];
  }

  lemma PutUnless(absent: bool, c: Component, cs: seq<Component>, zero: bool)
    requires AllTimed(cs, zero) && Ordered(cs)
    requires !absent ==> Timed(c, zero) && forall i :: 0 <= i < |cs| ==> Place(c) < Place(cs[i])
    ensures AllTimed(Unless(absent, c.number, c.unit) + cs, zero) && Ordered(Unless(absent, c.number, c.unit) + cs)
  {
    hide Timed, Place, AllTimed, Ordered;
    if absent {
      assert Unless(absent, c.number, c.unit) + cs == cs;
    } else {
      PutInFront(c, cs, zero);
    }
  }

  lemma TimePartsAreNormal(hours: nat, minutes: nat, seconds: nat, nanos: nat, zero: bool)
    requires hours < 24 && minutes < 60 && seconds < 60 && nanos < 1_000_000_000
    requires zero <==> hours == 0 && minutes == 0 && seconds == 0 && nanos == 0
    ensures var cs := TimeParts(hours, minutes, seconds, nanos);
            cs != [] && Ordered(cs) && AllTimed(cs, zero) && (zero ==> |cs| == 1)
  {
    var hh, mm := Component(Digits(hours), 'H'), Component(Digits(minutes), 'M');
    var ss := Component(SecondsNumber(seconds, nanos), 'S');
    var noSeconds := seconds == 0 && nanos == 0 && (hours > 0 || minutes > 0);
    var last := Unless(noSeconds, ss.number, 'S');
    var more := Unless(minutes == 0, mm.number, 'M') + last;
    hide Counted, Clocked, Digits, SecondsNumber, Ordered, AllTimed;
    if !noSeconds {
      WrittenSecondsAreClocked(seconds, nanos, zero);
    }
    if minutes > 0 {
      WrittenNumberIsCounted(minutes, 'M', 60);
    }
    if hours > 0 {
      WrittenNumberIsCounted(hours, 'H', 24);
    }
    NothingIsTimed(zero);
    assert last + [] == last;
    PutUnless(noSeconds, ss, [], zero);
    PutUnless(minutes == 0, mm, last, zero);
    PutUnless(hours == 0, hh, more, zero);
  }

  lemma NothingIsTimed(zero: bool)
    ensures Ordered([]) && AllTimed([], zero)
  {
  }

  lemma WrittenPartsAreNormal(days: nat, hours: nat, minutes: nat, seconds: nat, nanos: nat)
    requires hours < 24 && minutes < 60 && seconds < 60 && nanos < 1_000_000_000
    ensures Normal(WrittenParts(days, hours, minutes, seconds, nanos))
  {
    hide Ordered, AllTimed, Counted, TimeParts, Digits;
    if days > 0 {
      WrittenNumberIsCounted(days, 'D', 0);
    }
    var zero := hours == 0 && minutes == 0 && seconds == 0 && nanos == 0;
    TimePartsAreNormal(hours, minutes, seconds, nanos, zero);
    LooserIsTimed(TimeParts(hours, minutes, seconds, nanos), zero);
  }

  lemma LooserIsTimed(cs: seq<Component>, zero: bool)
    requires AllTimed(cs, zero)
    ensures AllTimed(cs, true)
  {
    hide Counted;
    assert forall i :: 0 <= i < |cs| ==> Timed(cs[i], zero);
  }

  // ---- and each duration has but one text in normal form -------------------------------

  lemma CountedIsWritten(c: Component, unit: char, below: nat)
    requires Counted(c, unit, below)
    ensures c == Component(Digits(NatOf(c.number)), unit)
  {
    ShortestIsDigits(c.number);
  }

  lemma ClockedIsWritten(c: Component, zero: bool) returns (seconds: nat, nanos: nat)
    requires Clocked(c, zero)
    ensures c == Component(SecondsNumber(seconds, nanos), 'S')
    ensures seconds < 60 && nanos < 1_000_000_000 && (zero || seconds > 0 || nanos > 0)
  {
    var whole, fraction := WholePart(c.number), FractionPart(c.number);
    ShortestIsDigits(whole);
    seconds := NatOf(whole);
    hide NatOf, Digits, NineDigits, Padded, TrimZeros;
    if '.' in c.number {
      TrimmedIsWritten(fraction);
      nanos := NatOf(NineDigits(fraction));
      assert c.number == whole + ("." + fraction);
    } else {
      nanos := 0;
    }
  }

  lemma TailOf(cs: seq<Component>, zero: bool)
    requires cs != [] && Ordered(cs) && AllTimed(cs, zero)
    ensures Ordered(cs[1..]) && AllTimed(cs[1..], zero)
    ensures forall i :: 0 <= i < |cs[1..]| ==> Place(cs[1..][i]) > Place(cs[0])
  {
    hide Timed, Place;
    assert forall i :: 0 <= i < |cs[1..]| ==> cs[1..][i] == cs[i + 1];
  }

  predicate From(cs: seq<Component>, place: nat) {
    forall i :: 0 <= i < |cs| ==> Place(cs[i]) >= place
  }

  /** The component of a place at the front, if there is one. */
  lemma TakePlace(cs: seq<Component>, unit: char, below: nat, place: nat, zero: bool) returns (n: nat, rest: seq<Component>)
    requires Ordered(cs) && AllTimed(cs, zero) && From(cs, place)
    requires (unit == 'H' && below == 24 && place == 0) || (unit == 'M' && below == 60 && place == 1)
    ensures n < below && cs == Unless(n == 0, Digits(n), unit) + rest
    ensures Ordered(rest) && AllTimed(rest, zero) && From(rest, place + 1)
  {
    hide Ordered, AllTimed, From, Digits;
    if cs != [] {
      FirstPlace(cs, unit, below, place, zero);
      TailOf(cs, zero);
    }
    if cs != [] && cs[0].unit == unit {
      CountedIsWritten(cs[0], unit, below);
      n, rest := NatOf(cs[0].number), cs[1..];
      hide NatOf, Shortest;
      LaterPlaces(cs[0], rest, place);
      assert cs == [cs[0]] + rest;
    } else {
      n, rest := 0, cs;
      assert [] + rest == rest;
      if cs == [] {
        NoPlaces(place + 1);
      } else {
        AllPlaces(cs, place);
      }
    }
  }

  lemma FirstPlace(cs: seq<Component>, unit: char, below: nat, place: nat, zero: bool)
    requires cs != [] && AllTimed(cs, zero) && From(cs, place)
    requires (unit == 'H' && below == 24 && place == 0) || (unit == 'M' && below == 60 && place == 1)
    ensures if cs[0].unit == unit then Counted(cs[0], unit, below) && Place(cs[0]) == place else Place(cs[0]) > place
  {
    hide Shortest, NatOf;
    assert Timed(cs[0], zero);
  }

  lemma LaterPlaces(c: Component, rest: seq<Component>, place: nat)
    requires Place(c) == place && forall i :: 0 <= i < |rest| ==> Place(rest[i]) > Place(c)
    ensures From(rest, place + 1)
  {
    hide Place;
  }

  lemma AllPlaces(cs: seq<Component>, place: nat)
    requires cs != [] && Place(cs[0]) > place && forall i :: 0 <= i < |cs[1..]| ==> Place(cs[1..][i]) > Place(cs[0])
    ensures From(cs, place + 1)
  {
    hide Place;
    assert forall i :: 0 < i < |cs| ==> cs[i] == cs[1..][i - 1];
  }

  lemma NoPlaces(place: nat)
    ensures From([], place)
  {
  }

  lemma AtMostSeconds(cs: seq<Component>, zero: bool)
    requires Ordered(cs) && AllTimed(cs, zero) && From(cs, 2)
    ensures cs == [] || (|cs| == 1 && Clocked(cs[0], zero))
  {
    hide Shortest, NatOf;
    if |cs| > 1 {
      var places := (Place(cs[0]), Place(cs[1]));
      assert false;
    }
    assert cs != [] ==> Timed(cs[0], zero);
  }

  lemma NormalTimeIsWritten(cs: seq<Component>, zero: bool) returns (hours: nat, minutes: nat, seconds: nat, nanos: nat)
    requires cs != [] && (zero ==> |cs| == 1) && Ordered(cs) && AllTimed(cs, zero)
    ensures hours < 24 && minutes < 60 && seconds < 60 && nanos < 1_000_000_000
    ensures cs == TimeParts(hours, minutes, seconds, nanos)
    ensures zero || hours > 0 || minutes > 0 || seconds > 0 || nanos > 0
  {
    var afterHours: seq<Component>, last: seq<Component>;
    hours, afterHours := TakePlace(cs, 'H', 24, 0, zero);
    minutes, last := TakePlace(afterHours, 'M', 60, 1, zero);
    hide Digits, SecondsNumber, Shortest, NatOf;
    AtMostSeconds(last, zero);
    if last == [] {
      seconds, nanos := 0, 0;
    } else {
      seconds, nanos := ClockedIsWritten(last[0], zero);
      assert last == [last[0]];
    }
    hide Ordered, AllTimed, From;
  }

  lemma NormalIsWritten(t: Spelled) returns (days: nat, hours: nat, minutes: nat, seconds: nat, nanos: nat)
    requires Normal(t)
    ensures hours < 24 && minutes < 60 && seconds < 60 && nanos < 1_000_000_000
    ensures t == WrittenParts(days, hours, minutes, seconds, nanos)
  {
    days, hours, minutes, seconds, nanos := 0, 0, 0, 0, 0;
    if t.date != [] {
      CountedIsWritten(t.date[0], 'D', 0);
      days := NatOf(t.date[0].number);
      assert t.date == [t.date[0]];
    }
    if t.time.Some? {
      hours, minutes, seconds, nanos := NormalTimeIsWritten(t.time.value, t.date == [] && |t.time.value| == 1);
    }
    hide TimeParts, Digits, NatOf, Counted, Clocked;
  }

  lemma ClockIs(secs: nat, days: nat, hours: nat, minutes: nat, seconds: nat)
    requires hours < 24 && minutes < 60 && seconds < 60
    requires secs == days * 86_400 + hours * 3_600 + minutes * 60 + seconds
    ensures days == secs / 86_400 && hours == secs % 86_400 / 3_600 && minutes == secs % 3_600 / 60 && seconds == secs % 60
  {
    Calendar.DivUnique(secs, 86_400, days);
    Calendar.DivUnique(secs % 86_400, 3_600, hours);
    Calendar.DivUnique(secs, 3_600, days * 24 + hours);
    Calendar.DivUnique(secs % 3_600, 60, minutes);
    Calendar.DivUnique(secs, 60, days * 1_440 + hours * 60 + minutes);
  }

  /** What is written is the one text in normal form that means the duration. */
  lemma WrittenIsTheNormalForm(t: Spelled, d: Duration)
    requires d.Valid()
    ensures t == Written(d) <==> Normal(t) && t.Legal() && t.Denotes() == Some(d)
  {
    hide Normal, WrittenParts, TotalSeconds, Fraction, AllLegal;
    if t == Written(d) {
      var days, hours, minutes, seconds := d.secs / 86_400, d.secs % 86_400 / 3_600, d.secs % 3_600 / 60, d.secs % 60;
      Timestamp.ClockSplits(d.secs % 86_400);
      assert d.secs % 86_400 % 3_600 == d.secs % 3_600 by {
        Calendar.DivUnique(d.secs, 3_600, days * 24 + hours);
      }
      WrittenPartsAreNormal(days, hours, minutes, seconds, d.nanos);
      WrittenPartsDenote(days, hours, minutes, seconds, d.nanos);
      SecondsSplit(d.secs);
      WrittenIsPlain(days, hours, minutes, seconds, d.nanos);
      DenotesSum(t, d.secs, d.nanos);
    } else if Normal(t) && t.Legal() && t.Denotes() == Some(d) {
      var days, hours, minutes, seconds, nanos := NormalIsWritten(t);
      WrittenPartsDenote(days, hours, minutes, seconds, nanos);
      WrittenIsPlain(days, hours, minutes, seconds, nanos);
      ClockIs(d.secs, days, hours, minutes, seconds);
      assert false;
    }
  }

  lemma WrittenIsPlain(days: nat, hours: nat, minutes: nat, seconds: nat, nanos: nat)
    ensures !WrittenParts(days, hours, minutes, seconds, nanos).negative
  {
  }

  // ---- weeks ------------------------------------------------------------------------

  /** A number of weeks is read, if it is read at all, as seven times as many days. */
  lemma WeeksAreSevenDays(n: nat)
    requires n * 604_800 <= U64_MAX
    ensures ReadDuration("P" + Digits(n) + "W") == ReadDuration("P" + Digits(7 * n) + "D") == Some(Duration(n * 604_800, 0))
  {
    SingleDatePart(n, 'W');
    SingleDatePart(7 * n, 'D');
  }

  lemma SingleDatePart(n: nat, unit: char)
    requires unit == 'W' || unit == 'D'
    requires n * UnitSeconds(false, unit) <= U64_MAX
    ensures ReadDuration("P" + Digits(n) + [unit]) == Some(Duration(n * UnitSeconds(false, unit), 0))
  {
    var c := Component(Digits(n), unit);
    PlainNumber(n, unit, false);
    var t := Spelled(false, [c], None);
    hide ReadDuration, Legal, ComponentSeconds, Digits;
    assert [c][1..] == [];
    NothingWritten();
    assert Spelling([c]) == Digits(n) + ([unit] + Spelling([]));
    assert "" + ("P" + (Digits(n) + ([unit] + "") + "")) == "P" + Digits(n) + [unit];
    ReadsSpelled(t);
    DenotesSum(t, n * UnitSeconds(false, unit), 0);
  }
}
