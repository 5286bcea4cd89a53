/**
 GTFS time values: `parseGtfsTime` turns a stop_times or frequencies field into
 seconds after midnight, with -1 for anything it cannot read, and `formatTime`
 writes seconds back as `HH:MM:SS`.
 */
module GtfsTime {
  import opened Wrappers
  import opened JsText
  import opened GtfsTypes

  /** The sentinel for an unreadable time. */
  const Invalid: int := -1

  /** Hours beyond this are rejected in the numeric form (GTFS times may run past midnight). */
  const MaxHours: int := 48

  // ---------------------------------------------------------------------------
  // parseGtfsTime
  // ---------------------------------------------------------------------------

  /**
   Reads a time field; -1 when it is absent or unreadable. A number is read as the
   decimal digits HHMMSS, so an accepted one lies in [0, 48 h). Text is split on ':'
   and each part read with `Number`: fewer than two parts, or an hour or minute part
   that is not a number, gives -1; otherwise h·3600 + m·60 plus the seconds part,
   which counts as 0 when it is missing or not a number.
   */
  function ParseGtfsTime(v: TimeValue): (r: int)
    ensures v.Absent? ==> r == Invalid
    ensures v.Numeric? ==> r == Invalid || 0 <= r < MaxHours * 3600
    ensures v.Numeric? && v.number >= 0 ==>
      r == ClockValue(v.number / 10000, (v.number / 100) % 100, v.number % 100)
    ensures v.Text? && (|Split(v.text, ':')| < 2 || ToNumber(Split(v.text, ':')[0]).None? || ToNumber(Split(v.text, ':')[1]).None?) ==>
      r == Invalid
    ensures v.Text? && |Split(v.text, ':')| >= 2 && ToNumber(Split(v.text, ':')[0]).Some? && ToNumber(Split(v.text, ':')[1]).Some? ==>
      r == ToNumber(Split(v.text, ':')[0]).value * 3600 + ToNumber(Split(v.text, ':')[1]).value * 60
           + (if |Split(v.text, ':')| > 2 then ToNumber(Split(v.text, ':')[2]).GetOr(0) else 0)
  {
    match v
    case Absent => Invalid
    case Numeric(n) =>
      NumericTimeRange(n);
      if n >= 0 then NumericTimeDigits(n); ParseNumericTime(n) else ParseNumericTime(n)
    case Text(s) => ParseTextTime(s)
  }

  /**
   The number branch: the digits, left-padded with zeros to six characters, are read
   as HHMMSS; hours must lie in [0, 48) and minutes and seconds in [0, 60).
   */
  function ParseNumericTime(n: int): int {
    ReadPadded(PadStart(IntToString(n), 6, '0'))
  }

  /** Reads padded digits as HHMM when four long and as HHMMSS when longer. */
  function ReadPadded(str: string): int {
    if |str| < 4 then Invalid
    else if |str| == 4 then ReadFields(ParseInt(Slice(str, 0, -2)), ParseInt(Slice(str, -2, |str|)), Some(0))
    else ReadFields(ParseInt(Slice(str, 0, -4)), ParseInt(Slice(str, -4, -2)), ParseInt(Slice(str, -2, |str|)))
  }

  /** The fields read, when all three are numbers in range. */
  function ReadFields(hours: Option<int>, minutes: Option<int>, seconds: Option<int>): int {
    if && hours.Some? && minutes.Some? && seconds.Some?
       && 0 <= hours.value && 0 <= minutes.value && 0 <= seconds.value
    then ClockValue(hours.value, minutes.value, seconds.value)
    else Invalid
  }

  /**
   The text branch: split on ':' and read each part with `Number`; hours and minutes
   are required, a missing or unreadable seconds part counts as 0, extra parts are ignored.
   */
  function ParseTextTime(s: string): int {
    ReadParts(Split(s, ':'))
  }

  function ReadParts(parts: seq<string>): int {
    if |parts| < 2 then Invalid
    else
      var h := ToNumber(parts[0]);
      var m := ToNumber(parts[1]);
      if h.None? || m.None? then Invalid
      else
        var secs := if |parts| > 2 then ToNumber(parts[2]).GetOr(0) else 0;
        h.value * 3600 + m.value * 60 + secs
  }

  /** Hours, minutes and seconds as seconds after midnight, or the sentinel when a field is out of range. */
  function ClockValue(h: nat, m: nat, s: nat): int {
    if h < MaxHours && m < 60 && s < 60 then h * 3600 + m * 60 + s else Invalid
  }

  /** After `padStart(6, '0')` the text is at least six long, so the HHMM reading never applies. */
  lemma PaddedAtLeastSix(n: int)
    ensures |PadStart(IntToString(n), 6, '0')| >= 6
  {
  }

  /**
   For a non-negative number the numeric branch is plain decimal arithmetic: the
   hours are n / 10000, the minutes the next two digits, the seconds the last two.
   */
  lemma {:induction false} NumericTimeDigits(n: nat)
    ensures ParseNumericTime(n) == ClockValue(n / 10000, (n / 100) % 100, n % 100)
  {
    var str, h, m, s := NumericFields(n);
    PaddedFromFields(str, h, m, s);
  }

  lemma PaddedFromFields(str: string, h: int, m: int, s: int)
    requires |str| > 4
    requires ParseInt(Slice(str, 0, -4)) == Some(h)
    requires ParseInt(Slice(str, -4, -2)) == Some(m)
    requires ParseInt(Slice(str, -2, |str|)) == Some(s)
    requires h >= 0 && m >= 0 && s >= 0
    ensures ReadPadded(str) == ClockValue(h, m, s)
  {
    assert ReadPadded(str) == ReadFields(Some(h), Some(m), Some(s));
  }

  /** The three slices of the padded digits read as n / 10000, the middle two digits and the last two. */
  lemma {:induction false} NumericFields(n: nat) returns (str: string, h: nat, m: nat, s: nat)
    ensures ParseNumericTime(n) == ReadPadded(str) && |str| > 4
    ensures h == n / 10000 && m == (n / 100) % 100 && s == n % 100
    ensures ParseInt(Slice(str, 0, -4)) == Some(h)
    ensures ParseInt(Slice(str, -4, -2)) == Some(m)
    ensures ParseInt(Slice(str, -2, |str|)) == Some(s)
  {
    var digits := NatToString(n);
    str := PadStart(digits, 6, '0');
    PaddedAtLeastSix(n);
    h, m, s := n / 10000, (n / 100) % 100, n % 100;
    PadStartDigits(digits, 6);
    SecondsSlice(str, n);
    MinutesSlice(str, n);
    HoursSlice(str, n);
  }

  lemma {:induction false} SecondsSlice(str: string, n: nat)
    requires AllDigits(str) && |str| >= 6 && DigitsValue(str) == n
    ensures ParseInt(Slice(str, -2, |str|)) == Some(n % 100)
  {
    Pow10Values();
    var len := |str|;
    LowDigits(str, 2);
    assert DigitsValue(str[len - 2..]) == n % 100;
    assert str[len - 2..len] == str[len - 2..];
    ReadSlice(str, -2, len, len - 2, len);
  }

  lemma {:induction false} MinutesSlice(str: string, n: nat)
    requires AllDigits(str) && |str| >= 6 && DigitsValue(str) == n
    ensures ParseInt(Slice(str, -4, -2)) == Some((n / 100) % 100)
  {
    Pow10Values();
    var len := |str|;
    LowDigits(str, 2);
    var high := str[..len - 2];
    LowDigits(high, 2);
    assert high[|high| - 2..] == str[len - 4..len - 2];
    ReadSlice(str, -4, -2, len - 4, len - 2);
  }

  lemma {:induction false} HoursSlice(str: string, n: nat)
    requires AllDigits(str) && |str| >= 6 && DigitsValue(str) == n
    ensures ParseInt(Slice(str, 0, -4)) == Some(n / 10000)
  {
    Pow10Values();
    var len := |str|;
    LowDigits(str, 4);
    ReadSlice(str, 0, -4, 0, len - 4);
  }

  /** A slice that picks a non-empty digit run reads as that run's value. */
  lemma {:induction false} ReadSlice(str: string, start: int, end: int, lo: nat, hi: nat)
    requires lo < hi <= |str| && AllDigits(str[lo..hi])
    requires SliceIndex(|str|, start) == lo && SliceIndex(|str|, end) == hi
    ensures ParseInt(Slice(str, start, end)) == Some(DigitsValue(str[lo..hi]) as int)
  {
    ReadDigits(str[lo..hi]);
  }

  /** The two powers of ten that split HHMMSS into its fields. */
  lemma Pow10Values()
    ensures Pow10(2) == 100 && Pow10(4) == 10000
  {
    assert Pow10(2) == 100;
    assert Pow10(4) == 10000;
  }

  /** An accepted numeric time lies in [0, 48 h); everything else is the sentinel. */
  lemma NumericTimeRange(n: int)
    ensures var t := ParseNumericTime(n); t == Invalid || 0 <= t < MaxHours * 3600
  {
  }

  /** A text time without a seconds part reads as whole minutes. */
  lemma {:induction false} TextTimeWithoutSeconds(hh: string, mm: string)
    requires |hh| > 0 && |mm| > 0 && AllDigits(hh) && AllDigits(mm)
    ensures ParseTextTime(hh + ":" + mm) == DigitsValue(hh) * 3600 + DigitsValue(mm) * 60
  {
    SplitTwo(hh, mm);
    ReadDigits(hh);
    ReadDigits(mm);
    ReadTwoParts([hh, mm], DigitsValue(hh), DigitsValue(mm));
  }

  lemma ReadTwoParts(parts: seq<string>, h: int, m: int)
    requires |parts| == 2 && ToNumber(parts[0]) == Some(h) && ToNumber(parts[1]) == Some(m)
    ensures ReadParts(parts) == h * 3600 + m * 60
  {
  }

  lemma ReadThreeParts(parts: seq<string>, h: int, m: int, s: int)
    requires |parts| == 3 && ToNumber(parts[0]) == Some(h) && ToNumber(parts[1]) == Some(m) && ToNumber(parts[2]) == Some(s)
    ensures ReadParts(parts) == h * 3600 + m * 60 + s
  {
  }

  lemma {:induction false} SplitTwo(hh: string, mm: string)
    requires AllDigits(hh) && AllDigits(mm)
    ensures Split(hh + ":" + mm, ':') == [hh, mm]
  {
    NoColon(hh);
    NoColon(mm);
    assert hh + ":" + mm == hh + [':'] + mm;
    SplitCons(hh, ':', mm);
    SplitNone(mm, ':');
  }

  /** `H:MM:SS` made of digit runs reads as H hours, MM minutes and SS seconds. */
  lemma {:induction false} TextTimeOfFields(hh: string, mm: string, ss: string)
    requires |hh| > 0 && |mm| > 0 && |ss| > 0 && AllDigits(hh) && AllDigits(mm) && AllDigits(ss)
    ensures ParseTextTime(hh + ":" + mm + ":" + ss) == DigitsValue(hh) * 3600 + DigitsValue(mm) * 60 + DigitsValue(ss)
  {
    SplitThree(hh, mm, ss);
    ReadDigits(hh);
    ReadDigits(mm);
    ReadDigits(ss);
    ReadThreeParts([hh, mm, ss], DigitsValue(hh), DigitsValue(mm), DigitsValue(ss));
  }

  lemma {:induction false} SplitThree(hh: string, mm: string, ss: string)
    requires AllDigits(hh) && AllDigits(mm) && AllDigits(ss)
    ensures Split(hh + ":" + mm + ":" + ss, ':') == [hh, mm, ss]
  {
    NoColon(hh);
    NoColon(mm);
    NoColon(ss);
    assert hh + ":" + mm + ":" + ss == hh + [':'] + (mm + [':'] + ss);
    SplitCons(hh, ':', mm + [':'] + ss);
    SplitCons(mm, ':', ss);
    SplitNone(ss, ':');
  }

  // ---------------------------------------------------------------------------
  // formatTime
  // ---------------------------------------------------------------------------

  /** Two-digit-at-least rendering of a field. */
  function Field(x: int): string {
    PadStart(IntToString(x), 2, '0')
  }

  /** `formatTime`: floor-divided hours, then minutes and seconds from JavaScript's remainder. */
  function FormatTime(seconds: int): string {
    var hours := seconds / 3600;
    var minutes := Rem(seconds, 3600) / 60;
    var secs := Rem(seconds, 60);
    Field(hours) + ":" + Field(minutes) + ":" + Field(secs)
  }

  /**
   For a non-negative time the three fields are digit runs of length at least two,
   minutes and seconds are exactly two digits below 60, and together they denote the time.
   */
  lemma {:induction false} FormatTimeFields(seconds: nat) returns (hh: string, mm: string, ss: string)
    ensures FormatTime(seconds) == hh + ":" + mm + ":" + ss
    ensures |hh| >= 2 && |mm| == 2 && |ss| == 2
    ensures AllDigits(hh) && AllDigits(mm) && AllDigits(ss)
    ensures DigitsValue(mm) < 60 && DigitsValue(ss) < 60
    ensures DigitsValue(hh) * 3600 + DigitsValue(mm) * 60 + DigitsValue(ss) == seconds
  {
    var h, m, s := seconds / 3600, seconds % 3600 / 60, seconds % 60;
    ClockSplit(seconds);
    hh := FieldDigits(h);
    mm := FieldDigits(m);
    ss := FieldDigits(s);
    assert FormatTime(seconds) == Field(h) + ":" + Field(m) + ":" + Field(s);
  }

  /** A field is the number's digits, padded to two. */
  lemma FieldDigits(x: nat) returns (f: string)
    ensures f == Field(x) && AllDigits(f) && |f| >= 2 && DigitsValue(f) == x
    ensures x < 100 ==> |f| == 2
  {
    PadStartDigits(NatToString(x), 2);
    if x < 100 {
      ShortNat(x);
    }
    f := Field(x);
  }

  lemma ShortNat(x: nat)
    requires x < 100
    ensures |NatToString(x)| <= 2
  {
    if x >= 10 {
      assert |NatToString(x / 10)| == 1;
    }
  }

  /** Hours, minutes and seconds recombine to the time they came from. */
  lemma {:induction false} ClockSplit(t: nat)
    ensures t % 3600 / 60 < 60 && t % 60 < 60
    ensures t / 3600 * 3600 + t % 3600 / 60 * 60 + t % 60 == t
  {
    var q, r := t / 3600, t % 3600;
    var m, s := r / 60, r % 60;
    assert r == m * 60 + s;
    assert t == q * 3600 + r;
    assert t == (q * 60 + m) * 60 + s;
    DivModUnique(t, 60, q * 60 + m, s);
    DivModUnique(r, 60, m, s);
    assert m * 60 < 3600;
    MulLess(m, 60);
  }

  lemma MulLess(m: int, k: int)
    requires m >= 0 && m * 60 < k * 60
    ensures m < k
  {
  }

  /** `parseGtfsTime(formatTime(s)) == s` for every non-negative whole number of seconds. */
  lemma {:induction false} FormatParseRoundTrip(seconds: nat)
    ensures ParseGtfsTime(Text(FormatTime(seconds))) == seconds
  {
    var hh, mm, ss := FormatTimeFields(seconds);
    TextTimeOfFields(hh, mm, ss);
  }

  lemma NoColon(s: string)
    requires AllDigits(s)
    ensures ':' !in s
  {
  }
}
