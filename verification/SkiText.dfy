/**
 Subject Key Identifiers and their text, src/ship/ski.rs: written as hexadecimal digits in
 either case and any grouping, read whatever separators a transcription contains.
 */
module SkiText {
  import opened Wrappers
  import Calendar

  const LEN := 20

  type Byte = n: nat | n < 256

  type Ski = s: seq<Byte> | |s| == LEN witness seq(LEN, _ => 0)

  datatype SkiParseError = Length(found: nat) | NotHex(c: char)

  // ---- characters ---------------------------------------------------------------

  predicate IsSeparator(c: char) {
    c == ' ' || c == ':' || c == '-' || c == '_'
  }

  predicate IsHex(c: char) {
    '0' <= c <= '9' || 'a' <= c <= 'f' || 'A' <= c <= 'F'
  }

  function HexValue(c: char): (v: nat)
    requires IsHex(c)
    ensures v < 16
  {
    if c <= '9' then (c - '0') as nat
    else if c <= 'F' then 10 + (c - 'A') as nat
    else 10 + (c - 'a') as nat
  }

  function HexDigit(v: nat, upper: bool): (c: char)
    requires v < 16
    ensures IsHex(c) && HexValue(c) == v
  {
    if v < 10 then '0' + v as char else (if upper then 'A' else 'a') + (v - 10) as char
  }

  // ---- writing ------------------------------------------------------------------------

  predicate GapBefore(i: nat, group: nat) {
    group != 0 && i != 0 && (i * 2) % group == 0
  }

  function Hex(ski: seq<Byte>, upper: bool, group: nat): string {
    if ski == [] then ""
    else
      var i := |ski| - 1;
      Hex(ski[..i], upper, group)
        + (if GapBefore(i, group) then " " else "")
        + [HexDigit(ski[i] / 16, upper), HexDigit(ski[i] % 16, upper)]
  }

  method WriteHex(ski: Ski, upper: bool, group: nat) returns (out: string)
    ensures out == Hex(ski, upper, group)
  {
    hide GapBefore, HexDigit;
    out := "";
    for i := 0 to LEN
      invariant out == Hex(ski[..i], upper, group)
    {
      assert ski[..i + 1][..i] == ski[..i];
      if GapBefore(i, group) {
        out := out + " ";
      }
      out := out + [HexDigit(ski[i] / 16, upper)];
      out := out + [HexDigit(ski[i] % 16, upper)];
    }
    assert ski[..LEN] == ski;
  }

  // ---- reading ------------------------------------------------------------------------

  /** The text without its separators. */
  function Digits(s: string): string {
    if s == "" then ""
    else
      var c := s[|s| - 1];
      Digits(s[..|s| - 1]) + if IsSeparator(c) then "" else [c]
  }

  predicate AllHex(s: string) {
    forall i :: 0 <= i < |s| ==> IsHex(s[i])
  }

  function FirstNotHex(s: string): char
    requires !AllHex(s)
  {
    if !IsHex(s[0]) then s[0] else FirstNotHex(s[1..])
  }

  /** Pairs of digits as bytes; a digit left over is dropped. */
  function BytesOf(digits: string): (b: seq<Byte>)
    requires AllHex(digits)
    ensures |b| == |digits| / 2
  {
    seq(|digits| / 2, i requires 0 <= i < |digits| / 2 =>
      16 * HexValue(digits[2 * i]) + HexValue(digits[2 * i + 1]))
  }

  /** `from_str`: a character that is no digit is reported before a wrong length is. */
  function Parse(s: string): Result<Ski, SkiParseError> {
    var digits := Digits(s);
    if !AllHex(digits) then Err(NotHex(FirstNotHex(digits)))
    else if |digits| != 2 * LEN then Err(Length(|digits|))
    else Ok(BytesOf(digits))
  }

  method FromStr(s: string) returns (r: Result<Ski, SkiParseError>)
    ensures r == Parse(s)
  {
    var bytes := new Byte[LEN](_ => 0);
    var nibbles := 0;
    for n := 0 to |s|
      invariant AllHex(Digits(s[..n])) && nibbles == |Digits(s[..n])|
      invariant forall i :: 0 <= i < LEN ==> bytes[i] == ByteSoFar(Digits(s[..n]), i)
    {
      var c := s[n];
      assert s[..n + 1][..n] == s[..n];
      if IsSeparator(c) {
        continue;
      }
      if !IsHex(c) {
        BadDigit(s, n);
        return Err(NotHex(c));
      }
      var value := HexValue(c);
      if nibbles < LEN * 2 {
        var index := nibbles / 2;
        if nibbles % 2 == 0 {
          bytes[index] := 16 * value;
        } else {
          // The low half is still zero, so setting its bits adds them.
          bytes[index] := bytes[index] + value;
        }
      }
      nibbles := nibbles + 1;
    }
    assert s[..|s|] == s;
    if nibbles != LEN * 2 {
      return Err(Length(nibbles));
    }
    r := Ok(bytes[..]);
    assert bytes[..] == BytesOf(Digits(s));
  }

  /** What the digits read so far make of byte `i`. */
  function ByteSoFar(digits: string, i: nat): Byte
    requires AllHex(digits)
  {
    (if 2 * i < |digits| then 16 * HexValue(digits[2 * i]) else 0)
      + (if 2 * i + 1 < |digits| then HexValue(digits[2 * i + 1]) else 0)
  }

  lemma {:induction false} DigitsAppend(a: string, b: string)
    ensures Digits(a + b) == Digits(a) + Digits(b)
    decreases |b|
  {
    if b == "" {
      assert a + b == a;
    } else {
      var n := |b| - 1;
      assert (a + b)[..|a| + n] == a + b[..n];
      DigitsAppend(a, b[..n]);
    }
  }

  lemma {:induction false} FirstNotHexIs(good: string, c: char, rest: string)
    requires AllHex(good) && !IsHex(c)
    ensures !AllHex(good + [c] + rest) && FirstNotHex(good + [c] + rest) == c
    decreases |good|
  {
    var s := good + [c] + rest;
    assert s[|good|] == c;
    if good != "" {
      assert s[0] == good[0];
      assert s[1..] == good[1..] + [c] + rest;
      FirstNotHexIs(good[1..], c, rest);
    }
  }

  lemma BadDigit(s: string, n: nat)
    requires n < |s| && AllHex(Digits(s[..n])) && !IsSeparator(s[n]) && !IsHex(s[n])
    ensures Parse(s) == Err(NotHex(s[n]))
  {
    assert s == s[..n] + [s[n]] + s[n + 1..];
    DigitsAppend(s[..n] + [s[n]], s[n + 1..]);
    assert (s[..n] + [s[n]])[..n] == s[..n];
    FirstNotHexIs(Digits(s[..n]), s[n], Digits(s[n + 1..]));
  }

  // ---- reading undoes writing -------------------------------------------------------------

  lemma BytesOneMore(digits: string, a: char, b: char)
    requires AllHex(digits) && |digits| % 2 == 0 && IsHex(a) && IsHex(b)
    ensures AllHex(digits + [a, b])
    ensures BytesOf(digits + [a, b]) == BytesOf(digits) + [16 * HexValue(a) + HexValue(b)]
  {
    var all := digits + [a, b];
    forall k | 0 <= k < |digits| / 2 ensures BytesOf(all)[k] == BytesOf(digits)[k] {
      assert all[2 * k] == digits[2 * k] && all[2 * k + 1] == digits[2 * k + 1];
    }
    assert all[|digits|] == a && all[|digits| + 1] == b;
  }

  lemma WrittenOneMore(ski: seq<Byte>, upper: bool, group: nat)
    requires ski != []
    ensures var i := |ski| - 1;
            Digits(Hex(ski, upper, group))
              == Digits(Hex(ski[..i], upper, group)) + [HexDigit(ski[i] / 16, upper), HexDigit(ski[i] % 16, upper)]
  {
    hide GapBefore, HexDigit, HexValue, IsHex, Digits;
    var i := |ski| - 1;
    var gap := if GapBefore(i, group) then " " else "";
    DigitsGrow(Hex(ski[..i], upper, group), gap, HexDigit(ski[i] / 16, upper), HexDigit(ski[i] % 16, upper));
  }

  lemma DigitsGrow(front: string, gap: string, a: char, b: char)
    requires gap == "" || gap == " "
    requires IsHex(a) && IsHex(b)
    ensures Digits(front + gap + [a, b]) == Digits(front) + [a, b]
  {
    DigitsAppend(front + gap, [a, b]);
    DigitsAppend(front, gap);
    TwoDigits(a, b);
  }

  lemma NothingWritten(upper: bool, group: nat)
    ensures Digits(Hex([], upper, group)) == "" && AllHex("") && BytesOf("") == []
  {
  }

  lemma {:induction false} WrittenDigits(ski: seq<Byte>, upper: bool, group: nat)
    ensures var digits := Digits(Hex(ski, upper, group));
            |digits| == 2 * |ski| && AllHex(digits) && BytesOf(digits) == ski
    decreases |ski|
  {
    hide *;
    if ski == [] {
      NothingWritten(upper, group);
    } else {
      var i := |ski| - 1;
      WrittenDigits(ski[..i], upper, group);
      WrittenOneMore(ski, upper, group);
      var a, b := HexDigit(ski[i] / 16, upper), HexDigit(ski[i] % 16, upper);
      BytesOneMore(Digits(Hex(ski[..i], upper, group)), a, b);
      assert ski == ski[..i] + [ski[i]];
    }
  }

  lemma OneDigit(c: char)
    ensures Digits([c]) == if IsSeparator(c) then "" else [c]
  {
    assert [c][..0] == "";
  }

  lemma TwoDigits(a: char, b: char)
    requires IsHex(a) && IsHex(b)
    ensures Digits([a, b]) == [a, b] && Digits(" ") == "" && Digits("") == ""
  {
    OneDigit(a);
    OneDigit(b);
    OneDigit(' ');
    DigitsAppend([a], [b]);
    assert [a, b] == [a] + [b];
  }

  /** A SKI written in either case and in groups of any size reads back. */
  lemma WrittenReadsBack(ski: Ski, upper: bool, group: nat)
    ensures Parse(Hex(ski, upper, group)) == Ok(ski)
  {
    WrittenDigits(ski, upper, group);
  }

  function Lower(c: char): char {
    if 'A' <= c <= 'F' then 'a' + (c - 'A') else c
  }

  function LowerAll(s: string): string {
    seq(|s|, i requires 0 <= i < |s| => Lower(s[i]))
  }

  lemma SameDigit(c: char, d: char)
    requires IsHex(d) && Lower(d) == d
    ensures Lower(c) == d <==> IsHex(c) && HexValue(c) == HexValue(d)
  {
  }

  lemma BytesDecideDigits(d: string, h: string)
    requires AllHex(d) && AllHex(h) && |d| == |h| == 2 * LEN
    ensures BytesOf(d) == BytesOf(h) <==> forall i :: 0 <= i < |d| ==> HexValue(d[i]) == HexValue(h[i])
  {
    hide HexValue;
    if BytesOf(d) == BytesOf(h) {
      forall i | 0 <= i < |d| ensures HexValue(d[i]) == HexValue(h[i]) {
        var k := i / 2;
        assert BytesOf(d)[k] == BytesOf(h)[k];
        assert i == 2 * k || i == 2 * k + 1;
      }
    }
  }

  lemma LowerDecides(d: string, h: string)
    requires AllHex(h) && forall i :: 0 <= i < |h| ==> Lower(h[i]) == h[i]
    ensures LowerAll(d) == h
       <==> AllHex(d) && |d| == |h| && forall i :: 0 <= i < |d| ==> HexValue(d[i]) == HexValue(h[i])
  {
    forall i | 0 <= i < |d| && i < |h|
      ensures Lower(d[i]) == h[i] <==> IsHex(d[i]) && HexValue(d[i]) == HexValue(h[i])
    {
      SameDigit(d[i], h[i]);
    }
    hide Lower, IsHex, HexValue;
    if LowerAll(d) == h {
      forall i | 0 <= i < |d| ensures Lower(d[i]) == h[i] {
        assert LowerAll(d)[i] == h[i];
      }
    }
  }

  /** Exactly the spellings of a SKI read as it: its digits, whatever the case and separators. */
  lemma ReadsExactlyItsSpellings(s: string, ski: Ski)
    ensures Parse(s) == Ok(ski) <==> LowerAll(Digits(s)) == Hex(ski, false, 0)
  {
    var d, h := Digits(s), Hex(ski, false, 0);
    WrittenDigits(ski, false, 0);
    PlainHex(ski, |ski|);
    assert ski[..|ski|] == ski;
    hide Digits, Hex, BytesOf, Lower, HexValue, IsHex, LowerAll;
    LowerDecides(d, h);
    if AllHex(d) && |d| == 2 * LEN {
      BytesDecideDigits(d, h);
    }
  }

  lemma {:induction false} PlainHex(ski: seq<Byte>, n: nat)
    requires n <= |ski|
    ensures var h := Hex(ski[..n], false, 0);
            |h| == 2 * n && Digits(h) == h && forall i :: 0 <= i < |h| ==> IsHex(h[i]) && Lower(h[i]) == h[i]
  {
    if n > 0 {
      PlainHex(ski, n - 1);
      assert ski[..n][..n - 1] == ski[..n - 1];
      var front := Hex(ski[..n - 1], false, 0);
      var a, b := HexDigit(ski[n - 1] / 16, false), HexDigit(ski[n - 1] % 16, false);
      DigitsAppend(front, [a, b]);
      TwoDigits(a, b);
      assert front + "" + [a, b] == front + [a, b];
    }
  }

  // ---- what is accepted, and what a text is refused for ---------------------------------

  /** Blanks, colons, hyphens and underscores may stand anywhere; they change nothing. */
  lemma SeparatorsAreIgnored(before: string, c: char, after: string)
    requires c in " :-_"
    ensures Parse(before + [c] + after) == Parse(before + after)
  {
    DigitsAppend(before + [c], after);
    DigitsAppend(before, [c]);
    DigitsAppend(before, after);
    OneDigit(c);
    assert Digits(before) + "" == Digits(before);
  }

  predicate Known(c: char) {
    c in "0123456789abcdefABCDEF :-_"
  }

  /** The first character that is neither a digit nor a separator. */
  predicate Offends(s: string, i: nat) {
    i < |s| && !Known(s[i]) && forall j :: 0 <= j < i ==> Known(s[j])
  }

  lemma KnownCharacters(c: char)
    ensures Known(c) <==> IsHex(c) || IsSeparator(c)
  {
  }

  lemma {:induction false} DigitsOfKnown(s: string)
    requires forall j :: 0 <= j < |s| ==> Known(s[j])
    ensures AllHex(Digits(s))
  {
    if s != "" {
      KnownCharacters(s[|s| - 1]);
      DigitsOfKnown(s[..|s| - 1]);
    }
  }

  /** It is refused for its first such character if there is one, and for its number of digits otherwise. */
  lemma RefusedFor(s: string, i: nat)
    ensures Offends(s, i) ==> Parse(s) == Err(NotHex(s[i]))
    ensures (forall j :: 0 <= j < |s| ==> Known(s[j])) ==>
              match Parse(s)
              case Ok(_) => |Digits(s)| == 40
              case Err(error) => |Digits(s)| != 40 && error == Length(|Digits(s)|)
  {
    if Offends(s, i) {
      DigitsOfKnown(s[..i]);
      KnownCharacters(s[i]);
      BadDigit(s, i);
    }
    if forall j :: 0 <= j < |s| ==> Known(s[j]) {
      DigitsOfKnown(s);
    }
  }

  lemma DigitIs(v: nat, upper: bool)
    requires v < 16
    ensures HexDigit(v, upper) == (if upper then "0123456789ABCDEF" else "0123456789abcdef")[v]
  {
  }

  // ---- how a SKI is grouped -------------------------------------------------------------

  /** Where the digits of byte `i` stand in groups of `bytes` bytes each. */
  function PlaceOf(i: nat, bytes: nat): nat
    requires bytes > 0
  {
    2 * i + i / bytes
  }

  lemma NextPlace(i: nat, bytes: nat)
    requires bytes > 0
    ensures PlaceOf(i + 1, bytes) == PlaceOf(i, bytes) + 2 + if (i + 1) % bytes == 0 then 1 else 0
  {
    var q, r := i / bytes, i % bytes;
    if r + 1 == bytes {
      assert (q + 1) * bytes == q * bytes + bytes;
      Calendar.DivUnique(i + 1, bytes, q + 1);
    } else {
      Calendar.DivUnique(i + 1, bytes, q);
    }
  }

  lemma GapsAreEven(i: nat, bytes: nat)
    requires bytes > 0
    ensures GapBefore(i, 2 * bytes) <==> i > 0 && i % bytes == 0
  {
    var q, r := i / bytes, i % bytes;
    assert q * (2 * bytes) == 2 * (q * bytes);
    Calendar.DivUnique(2 * i, 2 * bytes, q);
  }

  /**
   Grouped by whole bytes, a text has one blank between two groups and nowhere else: each byte's two
   digits stand in place, shifted by the number of groups before them.
   */
  lemma {:induction false} GroupedInPlace(ski: seq<Byte>, upper: bool, bytes: nat, i: nat)
    requires bytes > 0 && i < |ski|
    ensures var text, at := Hex(ski, upper, 2 * bytes), PlaceOf(i, bytes);
            && |text| == PlaceOf(|ski| - 1, bytes) + 2 && at + 2 <= |text|
            && text[at] == HexDigit(ski[i] / 16, upper) && text[at + 1] == HexDigit(ski[i] % 16, upper)
            && (i > 0 && i % bytes == 0 ==> text[at - 1] == ' ')
    decreases |ski|
  {
    hide HexDigit, HexValue, IsHex, GapBefore, PlaceOf;
    var n := |ski| - 1;
    GapsAreEven(n, bytes);
    FirstPlace(bytes);
    if n > 0 {
      NextPlace(n - 1, bytes);
      var front := Hex(ski[..n], upper, 2 * bytes);
      GroupedInPlace(ski[..n], upper, bytes, if i < n then i else n - 1);
      assert front <= Hex(ski, upper, 2 * bytes);
    }
  }

  lemma FirstPlace(bytes: nat)
    requires bytes > 0
    ensures PlaceOf(0, bytes) == 0
  {
  }
}
