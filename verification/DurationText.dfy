/**
 ISO 8601 durations as src/model/time.rs reads and writes them (`PnWnDTnHnMn.nS`), and the
 union of a duration and a timestamp that SPINE puts in one element.
 */
module DurationText {
  import opened Wrappers
  import opened Decimal
  import opened TimestampText
  import Timestamp
  import Calendar

  const U64_MAX := 0xffff_ffff_ffff_ffff

  datatype Duration = Duration(secs: nat, nanos: nat) {
    predicate Valid() {
      secs <= U64_MAX && nanos < 1_000_000_000
    }
  }

  // ---- one character at a time -----------------------------------------------

  /** The reader's state: `number` holds the characters since the last unit. */
  datatype Progress = Progress(secs: nat, nanos: nat, components: nat, number: string)

  predicate NumberChar(c: char) {
    IsDigit(c) || c == '.'
  }

  predicate IsUnit(time: bool, c: char) {
    if time then c == 'H' || c == 'M' || c == 'S' else c == 'W' || c == 'D'
  }

  function UnitSeconds(time: bool, c: char): nat
    requires IsUnit(time, c)
  {
    match c
    case 'W' => 604_800
    case 'D' => 86_400
    case 'H' => 3_600
    case 'M' => 60
    case _ => 1
  }

  /** `str::parse::<u64>` on text that holds digits and points only. */
  function ParseU64(s: string): Option<nat> {
    if s == "" || !AllDigits(s) || NatOf(s) > U64_MAX then None else Some(NatOf(s))
  }

  function AddSeconds(p: Progress, secs: nat, nanos: nat): Option<Progress> {
    if p.secs + secs > U64_MAX then None
    else Some(Progress(p.secs + secs, nanos, p.components + 1, ""))
  }

  function WholePart(number: string): string {
    match SplitOnce(number, '.')
    case Some((whole, _)) => whole
    case None => number
  }

  function FractionPart(number: string): string {
    match SplitOnce(number, '.')
    case Some((_, fraction)) => fraction
    case None => ""
  }

  function TakeSeconds(p: Progress): Option<Progress> {
    var whole, fraction := WholePart(p.number), FractionPart(p.number);
    if whole == "" && fraction == "" then None
    else
      var secs :- if whole == "" then Some(0) else ParseU64(whole);
      if '.' !in p.number then AddSeconds(p, secs, p.nanos)
      else if !AllDigits(NineDigits(fraction)) then None
      else AddSeconds(p, secs, NatOf(NineDigits(fraction)))
  }

  function TakeUnit(time: bool, p: Progress, c: char): Option<Progress>
    requires IsUnit(time, c)
  {
    if c == 'S' then TakeSeconds(p)
    else
      var count :- ParseU64(p.number);
      if count * UnitSeconds(time, c) > U64_MAX then None
      else AddSeconds(p, count * UnitSeconds(time, c), p.nanos)
  }

  function Step(time: bool, p: Progress, c: char): Option<Progress> {
    if NumberChar(c) then Some(p.(number := p.number + [c]))
    else if IsUnit(time, c) then TakeUnit(time, p, c)
    else None
  }

  function Run(time: bool, p: Progress, s: string): Option<Progress>
    decreases |s|
  {
    if s == "" then Some(p)
    else
      var next :- Step(time, p, s[0]);
      Run(time, next, s[1..])
  }

  /** A run over one part must not end inside a number. */
  function RunPart(time: bool, p: Progress, s: string): Option<Progress> {
    var last :- Run(time, p, s);
    if last.number == "" then Some(last) else None
  }

  /** `parse_iso8601_duration`, given where the date and the time part are. */
  function ReadParts(negative: bool, datePart: string, timePart: Option<string>): Option<Duration> {
    var afterDate :- RunPart(false, Progress(0, 0, 0, ""), datePart);
    var last :- if timePart.Some? then RunPart(true, afterDate, timePart.value) else Some(afterDate);
    if last.components == 0 then None
    else Some(if negative then Duration(0, 0) else Duration(last.secs, last.nanos))
  }

  function ReadDuration(s: string): Option<Duration> {
    var negative := StripPrefix(s, '-').Some?;
    var rest :- StripPrefix(if negative then s[1..] else s, 'P');
    match SplitOnce(rest, 'T')
    case Some((datePart, timePart)) => ReadParts(negative, datePart, Some(timePart))
    case None => ReadParts(negative, rest, None)
  }

  lemma {:induction false} RunAppend(time: bool, p: Progress, a: string, b: string)
    ensures Run(time, p, a + b)
         == (match Run(time, p, a) case None => None case Some(q) => Run(time, q, b))
    decreases |a|
  {
    if a == "" {
      assert a + b == b;
    } else {
      assert (a + b)[1..] == a[1..] + b;
      match Step(time, p, a[0])
      case None =>
      case Some(next) => RunAppend(time, next, a[1..], b);
    }
  }

  /** One of the reader's two loops, with its early exits. */
  method ReadPart(time: bool, start: Progress, s: string) returns (r: Option<Progress>)
    ensures r == RunPart(time, start, s)
  {
    var secs, nanos, components := start.secs, start.nanos, start.components;
    var number := start.number;
    for i := 0 to |s|
      invariant Run(time, start, s[..i]) == Some(Progress(secs, nanos, components, number))
    {
      var c := s[i];
      RunAppend(time, start, s[..i], [c]);
      assert s[..i + 1] == s[..i] + [c];
      RunAppend(time, start, s[..i + 1], s[i + 1..]);
      assert s == s[..i + 1] + s[i + 1..];
      ghost var here := Progress(secs, nanos, components, number);
      assert Run(time, here, [c]) == Step(time, here, c);
      if NumberChar(c) {
        number := number + [c];
      } else if !IsUnit(time, c) {
        return None;
      } else {
        var next := TakeUnit(time, Progress(secs, nanos, components, number), c);
        if next.None? {
          return None;
        }
        secs, nanos, components, number := next.value.secs, next.value.nanos, next.value.components, "";
      }
    }
    assert s[..|s|] == s;
    return if number == "" then Some(Progress(secs, nanos, components, number)) else None;
  }

  method ParseIso8601Duration(s: string) returns (r: Option<Duration>)
    ensures r == ReadDuration(s)
  {
    var negative := s != "" && s[0] == '-';
    var body := if negative then s[1..] else s;
    if body == "" || body[0] != 'P' {
      return None;
    }
    var parts := SplitOnce(body[1..], 'T');
    var datePart := if parts.Some? then parts.value.0 else body[1..];
    var progress := ReadPart(false, Progress(0, 0, 0, ""), datePart);
    if progress.None? {
      return None;
    }
    if parts.Some? {
      progress := ReadPart(true, progress.value, parts.value.1);
      if progress.None? {
        return None;
      }
    }
    if progress.value.components == 0 {
      return None;
    }
    if negative {
      return Some(Duration(0, 0));
    }
    return Some(Duration(progress.value.secs, progress.value.nanos));
  }

  // ---- what a duration text means --------------------------------------------

  /** A number and its unit. */
  datatype Component = Component(number: string, unit: char)

  predicate Legal(time: bool, c: Component) {
    && IsUnit(time, c.unit)
    && (forall i :: 0 <= i < |c.number| ==> NumberChar(c.number[i]))
    && (if c.unit == 'S'
        then (WholePart(c.number) != "" || FractionPart(c.number) != "")
             && AllDigits(NineDigits(FractionPart(c.number)))
        else c.number != "" && AllDigits(c.number))
  }

  predicate AllLegal(time: bool, cs: seq<Component>) {
    forall i :: 0 <= i < |cs| ==> Legal(time, cs[i])
  }

  function Spelling(cs: seq<Component>): string {
    if cs == [] then "" else cs[0].number + ([cs[0].unit] + Spelling(cs[1..]))
  }

  lemma WholePartDigits(time: bool, c: Component)
    requires Legal(time, c)
    ensures AllDigits(WholePart(c.number))
  {
    var split := SplitOnce(c.number, '.');
    forall i | 0 <= i < |WholePart(c.number)|
      ensures IsDigit(WholePart(c.number)[i])
    {
      assert WholePart(c.number)[i] == c.number[i];
      assert split.Some? ==> WholePart(c.number)[i] in split.value.0;
      assert split.None? ==> c.number[i] in c.number;
    }
  }

  function ComponentSeconds(time: bool, c: Component): nat
    requires Legal(time, c)
  {
    WholePartDigits(time, c);
    if c.unit == 'S' then NatOf(WholePart(c.number)) else NatOf(c.number) * UnitSeconds(time, c.unit)
  }

  /** The sum of the components: nothing is carried, clamped or approximated. */
  function TotalSeconds(time: bool, cs: seq<Component>): nat
    requires AllLegal(time, cs)
  {
    if cs == [] then 0 else ComponentSeconds(time, cs[0]) + TotalSeconds(time, cs[1..])
  }

  /** The fraction of the last component that carries one. */
  function Fraction(time: bool, cs: seq<Component>, before: nat): nat
    requires AllLegal(time, cs)
  {
    if cs == [] then before
    else assert Legal(time, cs[0]); Fraction(time, cs[1..], FractionOf(cs[0], before))
  }

  function FractionOf(c: Component, before: nat): nat
    requires Legal(true, c) || Legal(false, c)
  {
    if c.unit == 'S' && '.' in c.number then NatOf(NineDigits(FractionPart(c.number))) else before
  }

  /** A duration text, taken apart. */
  datatype Spelled = Spelled(negative: bool, date: seq<Component>, time: Option<seq<Component>>) {
    predicate Legal() {
      AllLegal(false, date) && (time.Some? ==> AllLegal(true, time.value))
    }

    function Text(): string {
      (if negative then "-" else "")
      + ("P" + (Spelling(date) + (if time.Some? then "T" + Spelling(time.value) else "")))
    }

    function Times(): (cs: seq<Component>)
      requires Legal()
      ensures AllLegal(true, cs)
    {
      time.UnwrapOr([])
    }

    function Denotes(): Option<Duration>
      requires Legal()
    {
      var secs := TotalSeconds(false, date) + TotalSeconds(true, Times());
      if |date| + |Times()| == 0 || secs > U64_MAX then None
      else if negative then Some(Duration(0, 0))
      else Some(Duration(secs, Fraction(true, Times(), 0)))
    }
  }

  // ---- the reader adds up exactly what the text says --------------------------

  lemma {:induction false} RunPushesNumber(time: bool, p: Progress, number: string, rest: string)
    requires forall i :: 0 <= i < |number| ==> NumberChar(number[i])
    ensures Run(time, p, number + rest) == Run(time, p.(number := p.number + number), rest)
    decreases |number|
  {
    if number == "" {
      assert number + rest == rest;
      assert p.number + number == p.number;
    } else {
      assert (number + rest)[1..] == number[1..] + rest;
      RunPushesNumber(time, p.(number := p.number + [number[0]]), number[1..], rest);
      assert p.number + [number[0]] + number[1..] == p.number + number;
    }
  }

  /** Each checked operation of one component fails exactly when the sum does not fit. */
  lemma TakeLegalUnit(time: bool, p: Progress, c: Component)
    requires Legal(time, c) && p.number == c.number && p.secs <= U64_MAX
    ensures TakeUnit(time, p, c.unit)
         == (var secs := p.secs + ComponentSeconds(time, c);
             if secs > U64_MAX then None
             else Some(Progress(secs, FractionOf(c, p.nanos), p.components + 1, "")))
  {
    WholePartDigits(time, c);
    if c.unit != 'S' {
      var count := NatOf(c.number);
      assert count * UnitSeconds(time, c.unit) >= count;
    } else {
      assert '.' in c.number <==> SplitOnce(c.number, '.').Some?;
    }
  }

  lemma UnitsAreNoNumbers(time: bool, p: Progress, c: Component)
    requires Legal(time, c)
    ensures forall i :: 0 <= i < |c.number| ==> NumberChar(c.number[i])
    ensures IsUnit(time, c.unit) && Step(time, p, c.unit) == TakeUnit(time, p, c.unit)
  {
    hide TakeUnit;
  }

  lemma RunTakesComponent(time: bool, p: Progress, c: Component, rest: string)
    requires Legal(time, c) && p.number == "" && p.secs <= U64_MAX
    ensures Run(time, p, c.number + ([c.unit] + rest))
         == (var secs := p.secs + ComponentSeconds(time, c);
             if secs > U64_MAX then None
             else Run(time, Progress(secs, FractionOf(c, p.nanos), p.components + 1, ""), rest))
  {
    var q := p.(number := c.number);
    assert p.number + c.number == c.number;
    UnitsAreNoNumbers(time, q, c);
    hide TakeUnit, Step, ComponentSeconds, FractionOf, Legal;
    RunPushesNumber(time, p, c.number, [c.unit] + rest);
    TakeLegalUnit(time, q, c);
    assert ([c.unit] + rest)[1..] == rest && ([c.unit] + rest)[0] == c.unit;
  }

  lemma {:induction false} RunAddsUp(time: bool, p: Progress, cs: seq<Component>)
    requires AllLegal(time, cs) && p.number == "" && p.secs <= U64_MAX
    ensures Run(time, p, Spelling(cs))
         == (var secs := p.secs + TotalSeconds(time, cs);
             if secs > U64_MAX then None
             else Some(Progress(secs, Fraction(time, cs, p.nanos), p.components + |cs|, "")))
    decreases |cs|
  {
    hide Step, ComponentSeconds, FractionOf, Legal;
    if cs != [] {
      var secs := p.secs + ComponentSeconds(time, cs[0]);
      RunTakesComponent(time, p, cs[0], Spelling(cs[1..]));
      if secs <= U64_MAX {
        RunAddsUp(time, Progress(secs, FractionOf(cs[0], p.nanos), p.components + 1, ""), cs[1..]);
      }
    }
  }

  lemma NoTimeMark(cs: seq<Component>)
    requires AllLegal(false, cs)
    ensures 'T' !in Spelling(cs)
  {
    if cs != [] {
      assert Legal(false, cs[0]);
      NoTimeMark(cs[1..]);
    }
  }

  lemma DoesNotSplit(s: string, c: char)
    requires c !in s
    ensures SplitOnce(s, c).None?
  {
  }

  /** Reading a well-formed text gives the exact sum, or nothing when it does not fit. */
  lemma ReadsSpelled(t: Spelled)
    requires t.Legal()
    ensures ReadDuration(t.Text()) == t.Denotes()
  {
    var body := Spelling(t.date) + (if t.time.Some? then "T" + Spelling(t.time.value) else "");
    assert t.Text() == if t.negative then "-" + ("P" + body) else "P" + body;
    Strips('P', body);
    if t.negative {
      Strips('-', "P" + body);
    }
    NoTimeMark(t.date);
    if t.time.Some? {
      SplitsAt(Spelling(t.date), 'T', Spelling(t.time.value));
    } else {
      assert body == Spelling(t.date);
      DoesNotSplit(body, 'T');
    }
    ReadsParts(t);
    hide ReadParts, Spelling;
  }

  lemma ReadsParts(t: Spelled)
    requires t.Legal()
    ensures ReadParts(t.negative, Spelling(t.date),
                      if t.time.Some? then Some(Spelling(t.time.value)) else None) == t.Denotes()
  {
    hide Run, TotalSeconds, Fraction, AllLegal;
    var start := Progress(0, 0, 0, "");
    RunAddsUp(false, start, t.date);
    NoFractionInDate(t.date, 0);
    var afterDate := RunPart(false, start, Spelling(t.date));
    if t.time.Some? && afterDate.Some? {
      RunAddsUp(true, afterDate.value, t.time.value);
    } else if t.time.None? {
      NothingAddsNothing();
    }
  }

  lemma NothingAddsNothing()
    ensures TotalSeconds(true, []) == 0 && Fraction(true, [], 0) == 0
  {
  }

  lemma {:induction false} NoFractionInDate(cs: seq<Component>, before: nat)
    requires AllLegal(false, cs)
    ensures Fraction(false, cs, before) == before
  {
    if cs != [] {
      assert Legal(false, cs[0]);
      NoFractionInDate(cs[1..], FractionOf(cs[0], before));
    }
  }

  lemma RunPartSteps(time: bool, p: Progress, s: string)
    requires RunPart(time, p, s).Some?
    ensures s == "" ==> p.number == ""
    ensures s != "" ==> Step(time, p, s[0]).Some? && RunPart(time, Step(time, p, s[0]).value, s[1..]).Some?
    ensures s != "" && !NumberChar(s[0]) ==> IsUnit(time, s[0]) && Step(time, p, s[0]) == TakeUnit(time, p, s[0])
    ensures s != "" && NumberChar(s[0]) ==> Step(time, p, s[0]) == Some(p.(number := p.number + [s[0]]))
  {
    hide TakeUnit;
  }

  lemma SpellsFirst(c: Component, rest: seq<Component>)
    ensures Spelling([c] + rest) == c.number + ([c.unit] + Spelling(rest))
    ensures Spelling([]) == ""
  {
    assert ([c] + rest)[1..] == rest;
  }

  lemma OneMoreLegal(time: bool, c: Component, rest: seq<Component>)
    requires Legal(time, c) && AllLegal(time, rest)
    ensures AllLegal(time, [c] + rest)
  {
  }

  predicate NumberChars(s: string) {
    forall i :: 0 <= i < |s| ==> NumberChar(s[i])
  }

  /** What a completed run read was a sequence of components. */
  lemma {:induction false} RunReadComponents(time: bool, p: Progress, s: string) returns (cs: seq<Component>)
    requires NumberChars(p.number)
    requires RunPart(time, p, s).Some?
    ensures AllLegal(time, cs) && p.number + s == Spelling(cs)
    decreases |s|
  {
    hide Step, TakeUnit, RunPart, Legal, Spelling, IsUnit;
    RunPartSteps(time, p, s);
    if s == "" {
      cs := [];
      SpellsFirst(Component("", 'S'), []);
    } else if NumberChar(s[0]) {
      cs := RunReadComponents(time, p.(number := p.number + [s[0]]), s[1..]);
      assert p.number + [s[0]] + s[1..] == p.number + s;
    } else {
      var c := Component(p.number, s[0]);
      UnitTakenIsLegal(time, p, s[0]);
      var rest := RunReadComponents(time, Step(time, p, s[0]).value, s[1..]);
      cs := [c] + rest;
      OneMoreLegal(time, c, rest);
      SpellsFirst(c, rest);
      assert "" + s[1..] == s[1..];
      assert s == [s[0]] + s[1..];
    }
  }

  lemma UnitTakenIsLegal(time: bool, p: Progress, c: char)
    requires NumberChars(p.number)
    requires IsUnit(time, c) && TakeUnit(time, p, c).Some?
    ensures Legal(time, Component(p.number, c))
    ensures TakeUnit(time, p, c).value.number == ""
  {
    if c == 'S' && '.' !in p.number {
      assert SplitOnce(p.number, '.').None?;
      assert AllDigits(NineDigits(""));
    }
  }

  lemma ShapeOfParts(negative: bool, datePart: string, timePart: Option<string>)
    returns (date: seq<Component>, time: Option<seq<Component>>)
    requires ReadParts(negative, datePart, timePart).Some?
    ensures AllLegal(false, date) && Spelling(date) == datePart
    ensures time.Some? == timePart.Some?
    ensures time.Some? ==> AllLegal(true, time.value) && Spelling(time.value) == timePart.value
  {
    hide RunPart, AllLegal, Spelling, NumberChar;
    var start := Progress(0, 0, 0, "");
    date := RunReadComponents(false, start, datePart);
    assert "" + datePart == datePart;
    time := None;
    if timePart.Some? {
      var afterDate := RunPart(false, start, datePart).value;
      NothingPending(false, start, datePart);
      var cs := RunReadComponents(true, afterDate, timePart.value);
      assert "" + timePart.value == timePart.value;
      time := Some(cs);
    }
  }

  lemma NothingPending(time: bool, p: Progress, s: string)
    requires RunPart(time, p, s).Some?
    ensures RunPart(time, p, s).value.number == ""
  {
    hide Run;
  }

  /** The sign, the `P` and the two parts of a text that is read. */
  lemma PartsOfText(s: string)
    requires ReadDuration(s).Some?
    ensures var negative := StripPrefix(s, '-').Some?;
            var body := if negative then s[1..] else s;
            && body != ""
            && var split := SplitOnce(body[1..], 'T');
               var (datePart, timePart) := if split.Some? then (split.value.0, Some(split.value.1)) else (body[1..], None);
               && ReadParts(negative, datePart, timePart).Some?
               && s == (if negative then "-" else "")
                     + ("P" + (datePart + if timePart.Some? then "T" + timePart.value else ""))
  {
    hide ReadParts, SplitOnce;
    var negative := StripPrefix(s, '-').Some?;
    var body := if negative then s[1..] else s;
    var rest := body[1..];
    assert s == (if negative then "-" else "") + body;
    assert body == "P" + rest;
    assert rest + "" == rest;
  }

  lemma ShapeOfDuration(s: string) returns (t: Spelled)
    requires ReadDuration(s).Some?
    ensures t.Legal() && s == t.Text()
  {
    PartsOfText(s);
    hide ReadDuration, ReadParts, AllLegal, Spelling, SplitOnce;
    var negative := StripPrefix(s, '-').Some?;
    var body := if negative then s[1..] else s;
    var split := SplitOnce(body[1..], 'T');
    var datePart := if split.Some? then split.value.0 else body[1..];
    var timePart := if split.Some? then Some(split.value.1) else None;
    var date, time := ShapeOfParts(negative, datePart, timePart);
    t := Spelled(negative, date, time);
  }

  /** The reader accepts exactly the component texts, and reads each as its exact sum. */
  lemma ReaderIsTheSum(s: string, d: Duration)
    ensures ReadDuration(s) == Some(d)
       <==> exists t: Spelled :: t.Legal() && s == t.Text() && t.Denotes() == Some(d)
  {
    if ReadDuration(s) == Some(d) {
      var t := ShapeOfDuration(s);
      ReadsSpelled(t);
    }
    forall t: Spelled | t.Legal() && s == t.Text() && t.Denotes() == Some(d)
      ensures ReadDuration(s) == Some(d)
    {
      ReadsSpelled(t);
    }
  }

  // ---- writing ---------------------------------------------------------------

  function SecondsNumber(seconds: nat, nanos: nat): string {
    if nanos > 0 then Digits(seconds) + ("." + TrimZeros(Padded(nanos, 9))) else Digits(seconds)
  }

  function Unless(absent: bool, number: string, unit: char): seq<Component> {
    if absent then [] else [Component(number, unit)]
  }

  function WrittenParts(days: nat, hours: nat, minutes: nat, seconds: nat, nanos: nat): Spelled {
    Spelled(false, Unless(days == 0, Digits(days), 'D'),
      if hours == 0 && minutes == 0 && seconds == 0 && nanos == 0 && days > 0 then None
      else Some(TimeParts(hours, minutes, seconds, nanos)))
  }

  /** The components a duration is written with. */
  function Written(d: Duration): Spelled {
    WrittenParts(d.secs / 86_400, d.secs % 86_400 / 3_600, d.secs % 3_600 / 60, d.secs % 60, d.nanos)
  }

  lemma {:induction false} SpellsOneMore(cs: seq<Component>, number: string, unit: char)
    ensures Spelling(cs + [Component(number, unit)]) == Spelling(cs) + number + [unit]
  {
    var c := Component(number, unit);
    if cs == [] {
      assert cs + [c] == [c];
      assert number + ([unit] + "") == "" + number + [unit];
    } else {
      SpellsOneMore(cs[1..], number, unit);
      assert (cs + [c])[1..] == cs[1..] + [c];
      assert cs[0].number + ([cs[0].unit] + (Spelling(cs[1..]) + number + [unit]))
          == cs[0].number + ([cs[0].unit] + Spelling(cs[1..])) + number + [unit];
    }
  }

  lemma AppendsPiece(head: string, cs: seq<Component>, number: string, unit: char)
    ensures head + Spelling(cs) + number + [unit] == head + Spelling(cs + [Component(number, unit)])
  {
    SpellsOneMore(cs, number, unit);
    hide Spelling;
  }

  lemma AppendsNothing(head: string)
    ensures head + Spelling([]) == head
  {
  }

  /** `format_iso8601_duration`: the text grows piece by piece, zero pieces left out. */
  method FormatIso8601Duration(d: Duration) returns (out: string)
    ensures out == Written(d).Text()
  {
    hide Digits, SecondsNumber, Spelling;
    var days, hours := d.secs / 86_400, d.secs % 86_400 / 3_600;
    var minutes, seconds := d.secs % 3_600 / 60, d.secs % 60;
    ghost var date, time: seq<Component> := [], [];
    out := "P";
    AppendsNothing(out);
    if days > 0 {
      AppendsPiece("P", date, Digits(days), 'D');
      out := out + Digits(days) + "D";
      date := date + [Component(Digits(days), 'D')];
    }
    assert date == Unless(days == 0, Digits(days), 'D');
    ghost var head := out + "T";
    if hours > 0 || minutes > 0 || seconds > 0 || d.nanos > 0 || days == 0 {
      out := out + "T";
      AppendsNothing(out);
      if hours > 0 {
        AppendsPiece(head, time, Digits(hours), 'H');
        out := out + Digits(hours) + "H";
        time := time + [Component(Digits(hours), 'H')];
      }
      assert time == Unless(hours == 0, Digits(hours), 'H');
      if minutes > 0 {
        AppendsPiece(head, time, Digits(minutes), 'M');
        out := out + Digits(minutes) + "M";
        time := time + [Component(Digits(minutes), 'M')];
      }
      if seconds > 0 || d.nanos > 0 || (hours == 0 && minutes == 0) {
        AppendsPiece(head, time, SecondsNumber(seconds, d.nanos), 'S');
        out := out + SecondsNumber(seconds, d.nanos) + "S";
        time := time + [Component(SecondsNumber(seconds, d.nanos), 'S')];
      }
      assert time == Unless(hours == 0, Digits(hours), 'H') + Unless(minutes == 0, Digits(minutes), 'M')
        + Unless(seconds == 0 && d.nanos == 0 && (hours > 0 || minutes > 0),
                 SecondsNumber(seconds, d.nanos), 'S');
      PiecesAssociate(Unless(hours == 0, Digits(hours), 'H'), Unless(minutes == 0, Digits(minutes), 'M'),
        Unless(seconds == 0 && d.nanos == 0 && (hours > 0 || minutes > 0),
               SecondsNumber(seconds, d.nanos), 'S'));
      TextOfParts(date, time);
    } else {
      TextOfDate(date);
    }
  }

  lemma TextOfParts(date: seq<Component>, time: seq<Component>)
    ensures Spelled(false, date, Some(time)).Text() == "P" + Spelling(date) + "T" + Spelling(time)
  {
  }

  lemma TextOfDate(date: seq<Component>)
    ensures Spelled(false, date, None).Text() == "P" + Spelling(date)
  {
  }

  lemma PiecesAssociate(a: seq<Component>, b: seq<Component>, c: seq<Component>)
    ensures a + b + c == a + (b + c)
  {
  }

  lemma PlainNumber(n: nat, unit: char, time: bool)
    requires IsUnit(time, unit) && unit != 'S'
    ensures var c := Component(Digits(n), unit);
            Legal(time, c) && ComponentSeconds(time, c) == n * UnitSeconds(time, unit)
  {
    DigitsReadBack(n);
  }

  lemma SecondsComponent(seconds: nat, nanos: nat)
    requires nanos < 1_000_000_000
    ensures var c := Component(SecondsNumber(seconds, nanos), 'S');
            && Legal(true, c) && ComponentSeconds(true, c) == seconds
            && FractionOf(c, 0) == nanos
  {
    hide Digits, NatOf, NineDigits, TrimZeros, Padded;
    DigitsReadBack(seconds);
    if nanos > 0 {
      TrimmedNanosReadBack(nanos);
      var f := TrimZeros(Padded(nanos, 9));
      SplitsAt(Digits(seconds), '.', f);
      assert AllDigits(NineDigits(f));
    } else {
      DoesNotSplit(Digits(seconds), '.');
      assert AllDigits(NineDigits(""));
    }
  }

  lemma AddsUnless(time: bool, absent: bool, c: Component, rest: seq<Component>, before: nat)
    requires Legal(time, c) && AllLegal(time, rest)
    requires absent ==> ComponentSeconds(time, c) == 0 && FractionOf(c, before) == before
    ensures var cs := Unless(absent, c.number, c.unit) + rest;
            && AllLegal(time, cs)
            && TotalSeconds(time, cs) == ComponentSeconds(time, c) + TotalSeconds(time, rest)
            && Fraction(time, cs, before) == Fraction(time, rest, FractionOf(c, before))
  {
    hide Legal, ComponentSeconds, FractionOf;
    if absent {
      assert Unless(absent, c.number, c.unit) + rest == rest;
    } else {
      assert (Unless(absent, c.number, c.unit) + rest)[1..] == rest;
    }
  }

  /** The time part, written with no component that is zero unless it is the only one. */
  function TimeParts(hours: nat, minutes: nat, seconds: nat, nanos: nat): seq<Component> {
    Unless(hours == 0, Digits(hours), 'H')
      + (Unless(minutes == 0, Digits(minutes), 'M')
         + Unless(seconds == 0 && nanos == 0 && (hours > 0 || minutes > 0), SecondsNumber(seconds, nanos), 'S'))
  }

  lemma TimePartsDenote(hours: nat, minutes: nat, seconds: nat, nanos: nat)
    requires nanos < 1_000_000_000
    ensures var cs := TimeParts(hours, minutes, seconds, nanos);
            && AllLegal(true, cs) && |cs| > 0
            && TotalSeconds(true, cs) == hours * 3_600 + minutes * 60 + seconds
            && Fraction(true, cs, 0) == nanos
  {
    var ss := Component(SecondsNumber(seconds, nanos), 'S');
    var mm := Component(Digits(minutes), 'M');
    var hh := Component(Digits(hours), 'H');
    PlainNumber(hours, 'H', true);
    PlainNumber(minutes, 'M', true);
    SecondsComponent(seconds, nanos);
    assert FractionOf(hh, 0) == FractionOf(mm, 0) == 0;
    hide Legal, AllLegal, ComponentSeconds, SecondsNumber, Digits, FractionOf;
    NothingWritten();
    var noSeconds := seconds == 0 && nanos == 0 && (hours > 0 || minutes > 0);
    var sTail := Unless(noSeconds, ss.number, 'S');
    assert sTail + [] == sTail;
    AddsUnless(true, noSeconds, ss, [], 0);
    AddsUnless(true, minutes == 0, mm, sTail, 0);
    AddsUnless(true, hours == 0, hh, Unless(minutes == 0, mm.number, 'M') + sTail, 0);
    hide TotalSeconds, Fraction;
  }

  lemma NothingWritten()
    ensures AllLegal(true, []) && TotalSeconds(true, []) == 0 && Fraction(true, [], 0) == 0
    ensures AllLegal(false, []) && TotalSeconds(false, []) == 0
  {
  }

  lemma WrittenPartsDenote(days: nat, hours: nat, minutes: nat, seconds: nat, nanos: nat)
    requires nanos < 1_000_000_000
    ensures var t := WrittenParts(days, hours, minutes, seconds, nanos);
            && t.Legal()
            && TotalSeconds(false, t.date) + TotalSeconds(true, t.Times())
               == days * 86_400 + hours * 3_600 + minutes * 60 + seconds
            && Fraction(true, t.Times(), 0) == nanos
            && |t.date| + |t.Times()| > 0
  {
    var date := Unless(days == 0, Digits(days), 'D');
    var t := WrittenParts(days, hours, minutes, seconds, nanos);
    DatePartDenotes(days);
    NothingWritten();
    TimePartsDenote(hours, minutes, seconds, nanos);
    hide AllLegal, TotalSeconds, Fraction, TimeParts, Digits;
    assert t.date == date;
    assert t.Times() == [] || t.Times() == TimeParts(hours, minutes, seconds, nanos);
  }

  lemma DatePartDenotes(days: nat)
    ensures var date := Unless(days == 0, Digits(days), 'D');
            AllLegal(false, date) && TotalSeconds(false, date) == days * 86_400
  {
    var dd := Component(Digits(days), 'D');
    PlainNumber(days, 'D', false);
    assert FractionOf(dd, 0) == 0;
    NothingWritten();
    hide Legal, AllLegal, ComponentSeconds, Digits, FractionOf, TotalSeconds;
    AddsUnless(false, days == 0, dd, [], 0);
    assert Unless(days == 0, dd.number, 'D') + [] == Unless(days == 0, dd.number, 'D');
  }

  lemma PartsReadBack(days: nat, hours: nat, minutes: nat, seconds: nat, nanos: nat)
    requires nanos < 1_000_000_000
    requires days * 86_400 + hours * 3_600 + minutes * 60 + seconds <= U64_MAX
    ensures ReadDuration(WrittenParts(days, hours, minutes, seconds, nanos).Text())
         == Some(Duration(days * 86_400 + hours * 3_600 + minutes * 60 + seconds, nanos))
  {
    var t := WrittenParts(days, hours, minutes, seconds, nanos);
    assert !t.negative;
    WrittenPartsDenote(days, hours, minutes, seconds, nanos);
    hide WrittenParts, Spelling, TotalSeconds, Fraction, ReadDuration, AllLegal;
    ReadsSpelled(t);
    DenotesSum(t, days * 86_400 + hours * 3_600 + minutes * 60 + seconds, nanos);
  }

  lemma DenotesSum(t: Spelled, secs: nat, nanos: nat)
    requires t.Legal() && !t.negative && |t.date| + |t.Times()| > 0 && secs <= U64_MAX
    requires TotalSeconds(false, t.date) + TotalSeconds(true, t.Times()) == secs && Fraction(true, t.Times(), 0) == nanos
    ensures t.Denotes() == Some(Duration(secs, nanos))
  {
  }

  lemma SecondsSplit(secs: nat)
    ensures secs / 86_400 * 86_400 + secs % 86_400 / 3_600 * 3_600 + secs % 3_600 / 60 * 60 + secs % 60 == secs
  {
    var rem := secs % 86_400;
    Timestamp.ClockSplits(rem);
    Calendar.DivUnique(secs, 3_600, secs / 86_400 * 24 + rem / 3_600);
    Calendar.DivUnique(secs, 60, secs / 86_400 * 1_440 + rem / 3_600 * 60 + rem % 3_600 / 60);
  }

  /** Every duration that fits 64-bit seconds is read back from its text, to the nanosecond. */
  lemma WrittenReadsBack(d: Duration)
    requires d.Valid()
    ensures ReadDuration(Written(d).Text()) == Some(d)
  {
    hide WrittenParts, ReadDuration;
    SecondsSplit(d.secs);
    PartsReadBack(d.secs / 86_400, d.secs % 86_400 / 3_600, d.secs % 3_600 / 60, d.secs % 60, d.nanos);
  }

  // ---- the union of a duration and a timestamp ---------------------------------

  datatype TimeValue = Absolute(stamp: Timestamp.DateTime) | Relative(age: Duration)

  predicate IsRelative(s: string) {
    "P" <= s || "-P" <= s
  }

  /** `AbsoluteOrRelativeTime::parse`. */
  function ParseTimeValue(s: string): Option<TimeValue> {
    if IsRelative(s) then
      var d :- ReadDuration(s);
      Some(Relative(d))
    else
      var t :- ParseXsDateTime(s);
      Some(Absolute(t))
  }

  lemma DurationsStartWithP(s: string)
    requires ReadDuration(s).Some?
    ensures IsRelative(s)
  {
  }

  lemma TimestampsDoNot(s: string)
    requires ParseXsDateTime(s).Some?
    ensures !IsRelative(s)
  {
    var f, zone := ShapeOfText(s);
    var after := f.year + ("-" + SpellAfterYear(f, SpellZone(zone)));
    assert s == if f.negative then "-" + after else after;
    assert IsDigit(after[0]) by {
      assert after[0] == f.year[0];
    }
  }

  /** No text is both, so the union is decided by the reader that accepts the text. */
  lemma UnionIsUnambiguous(s: string, v: TimeValue)
    ensures ParseTimeValue(s) == Some(v)
       <==> (match v
             case Relative(d) => ReadDuration(s) == Some(d)
             case Absolute(t) => ParseXsDateTime(s) == Some(t))
    ensures ReadDuration(s).None? || ParseXsDateTime(s).None?
  {
    hide ReadDuration, ParseXsDateTime, IsRelative;
    if ReadDuration(s).Some? {
      DurationsStartWithP(s);
    }
    if ParseXsDateTime(s).Some? {
      TimestampsDoNot(s);
    }
  }

  /** Either form, once written, is read back as the form it was. */
  lemma WrittenTimeValuesReadBack(d: Duration, t: Timestamp.DateTime)
    requires d.Valid() && t.Valid()
    ensures ParseTimeValue(Written(d).Text()) == Some(Relative(d))
    ensures ParseTimeValue(Print(t)) == Some(Absolute(t))
       <==> t.year != Calendar.I32_MIN && OffsetAllowed(t.offsetMinutes)
  {
    hide ReadDuration, ParseXsDateTime, Written, Print;
    WrittenReadsBack(d);
    PrintedReadsBack(t);
    UnionIsUnambiguous(Written(d).Text(), Relative(d));
    UnionIsUnambiguous(Print(t), Absolute(t));
  }
}
