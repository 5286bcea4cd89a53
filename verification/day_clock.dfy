/**
 The 24-hour dial the playback clock runs on: JavaScript's remainder on seconds, and
 the double remainder that brings any time, negative ones too, onto the dial.
 */
module DayClock {
  const DayLength: real := 86400.0

  /** Rounds toward zero, as a JavaScript quotient is cut. */
  function Trunc(x: real): int {
    if x >= 0.0 then x.Floor else -((-x).Floor)
  }

  /**
   JavaScript's `a % 86400`: the remainder after the quotient rounded toward zero, signed like `a`.
   It is `JsText.Rem` on reals, since the playback clock is not a whole number of seconds.
   */
  function RemDay(a: real): (r: real)
    ensures -DayLength < r < DayLength
    ensures a >= 0.0 ==> r >= 0.0
    ensures a < 0.0 ==> r <= 0.0
  {
    a - DayLength * (Trunc(a / DayLength) as real)
  }

  /** The mathematical time of day: `a` less the whole days below it. */
  function FloorMod(a: real): real {
    a - DayLength * ((a / DayLength).Floor as real)
  }

  /** `((s % 86400) + 86400) % 86400`. */
  function Wrap(s: real): (r: real)
    ensures 0.0 <= r < DayLength
    ensures 0.0 <= s < DayLength ==> r == s
  {
    RemDay(RemDay(s) + DayLength)
  }

  /** A whole number of days. */
  ghost predicate WholeDays(d: real) {
    (d / DayLength).Floor as real == d / DayLength
  }

  /** Two times of day on the dial that differ by whole days are the same. */
  lemma SameOnDial(a: real, b: real)
    requires 0.0 <= a < DayLength && 0.0 <= b < DayLength
    requires WholeDays(a - b)
    ensures a == b
  {
  }

  /** The double remainder of the source is the mathematical time of day, for negative times too. */
  lemma WrapIsFloorMod(s: real)
    ensures Wrap(s) == FloorMod(s)
  {
    var r1 := RemDay(s);
    var k1 := Trunc(s / DayLength);
    assert r1 == s - DayLength * (k1 as real);
    var k2 := Trunc((r1 + DayLength) / DayLength);
    assert Wrap(s) == r1 + DayLength - DayLength * (k2 as real);
    var f := (s / DayLength).Floor;
    assert 0.0 <= FloorMod(s) < DayLength;
    assert Wrap(s) - FloorMod(s) == DayLength * ((f - k1 + 1 - k2) as real);
    assert WholeDays(Wrap(s) - FloorMod(s));
    SameOnDial(Wrap(s), FloorMod(s));
  }

  /** Moving a time by whole days does not move it on the dial. */
  lemma WrapPeriodic(s: real, k: int)
    ensures Wrap(s + DayLength * (k as real)) == Wrap(s)
  {
    WrapIsFloorMod(s);
    WrapIsFloorMod(s + DayLength * (k as real));
    assert ((s + DayLength * (k as real)) / DayLength).Floor == (s / DayLength).Floor + k;
  }

  /** Wrapping an intermediate result does not change where a sum lands on the dial. */
  lemma WrapAbsorbs(a: real, b: real)
    ensures Wrap(Wrap(a) + b) == Wrap(a + b)
  {
    WrapIsFloorMod(a);
    var k := (a / DayLength).Floor;
    assert Wrap(a) + b == (a + b) + DayLength * ((-k) as real);
    WrapPeriodic(a + b, -k);
  }
}
