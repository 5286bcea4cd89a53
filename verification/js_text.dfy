/**
 The JavaScript primitives the viewer's code leans on, restricted to integers:
 `String(n)`, `padStart`, `slice`, `split`, `startsWith`, `Number(s)`, `parseInt(s, 10)`
 and the truncating remainder `%`. `None` stands for `NaN`.
 */
module JsText {
  import opened Wrappers

  // ---------------------------------------------------------------------------
  // Digits
  // ---------------------------------------------------------------------------

  predicate IsDigit(c: char) { '0' <= c <= '9' }

  predicate AllDigits(s: string) { forall i :: 0 <= i < |s| ==> IsDigit(s[i]) }

  function DigitValue(c: char): (d: nat)
    requires IsDigit(c)
    ensures d < 10
  {
    (c as int) - ('0' as int)
  }

  function DigitChar(d: nat): (c: char)
    requires d < 10
    ensures IsDigit(c) && DigitValue(c) == d
  {
    (('0' as int) + d) as char
  }

  /** Value of a run of decimal digits, most significant digit first. */
  function DigitsValue(s: string): nat
    requires AllDigits(s)
  {
    if |s| == 0 then 0 else DigitsValue(s[..|s| - 1]) * 10 + DigitValue(s[|s| - 1])
  }

  function Pow10(k: nat): (p: nat)
    ensures p >= 1
  {
    if k == 0 then 1 else 10 * Pow10(k - 1)
  }

  /** A digit run of length k denotes a value below 10^k. */
  lemma {:induction false} DigitsValueBound(s: string)
    requires AllDigits(s)
    ensures DigitsValue(s) < Pow10(|s|)
  {
    if |s| > 0 {
      DigitsValueBound(s[..|s| - 1]);
    }
  }

  /** Splitting a digit run at k splits its value into a high and a low part. */
  lemma {:induction false} DigitsValueSplit(s: string, k: nat)
    requires AllDigits(s) && k <= |s|
    ensures AllDigits(s[..k]) && AllDigits(s[k..])
    ensures DigitsValue(s) == DigitsValue(s[..k]) * Pow10(|s| - k) + DigitsValue(s[k..])
    decreases |s|
  {
    if k == |s| {
      assert s[..k] == s;
      assert s[k..] == [];
    } else {
      var init := s[..|s| - 1];
      DigitsValueSplit(init, k);
      assert init[..k] == s[..k];
      assert s[k..][..|s[k..]| - 1] == init[k..];
      assert s[k..][|s[k..]| - 1] == s[|s| - 1];
      Regroup(DigitsValue(s[..k]), Pow10(|init| - k), DigitsValue(init[k..]), DigitValue(s[|s| - 1]),
              DigitsValue(init), DigitsValue(s[k..]), Pow10(|s| - k), DigitsValue(s));
    }
  }

  /** One more digit below a split number: the high part moves up one place with it. */
  lemma Regroup(a: int, b: int, c: int, d: int, whole: int, low: int, p: int, v: int)
    requires whole == a * b + c && low == c * 10 + d && p == 10 * b && v == whole * 10 + d
    ensures v == a * p + low
  {
  }

  /** The low k digits of a digit run, and what remains above them. */
  lemma LowDigits(s: string, k: nat)
    requires AllDigits(s) && k <= |s|
    ensures AllDigits(s[..|s| - k]) && AllDigits(s[|s| - k..])
    ensures DigitsValue(s[|s| - k..]) == DigitsValue(s) % Pow10(k)
    ensures DigitsValue(s[..|s| - k]) == DigitsValue(s) / Pow10(k)
  {
    DigitsValueSplit(s, |s| - k);
    DigitsValueBound(s[|s| - k..]);
    var hi := DigitsValue(s[..|s| - k]);
    var lo := DigitsValue(s[|s| - k..]);
    DivModUnique(DigitsValue(s), Pow10(k), hi, lo);
  }

  lemma DivModUnique(n: int, d: int, q: int, r: int)
    requires d > 0 && 0 <= r < d && n == q * d + r
    ensures n / d == q && n % d == r
  {
    var q', r' := n / d, n % d;
    assert n == q' * d + r';
    if q' < q {
      assert (q' + 1) * d == q' * d + d;
      MulMonotone(q' + 1, q, d);
    } else if q < q' {
      assert (q + 1) * d == q * d + d;
      MulMonotone(q + 1, q', d);
    }
  }

  lemma MulMonotone(a: int, b: int, d: int)
    requires a <= b && d >= 0
    ensures a * d <= b * d
  {
    assert b * d - a * d == (b - a) * d;
  }

  /** Leading zeros do not change the value of a digit run. */
  lemma ZerosPrefix(z: string, s: string)
    requires forall i :: 0 <= i < |z| ==> z[i] == '0'
    requires AllDigits(s)
    ensures AllDigits(z + s) && DigitsValue(z + s) == DigitsValue(s)
  {
    var t := z + s;
    DigitsValueSplit(t, |z|);
    assert t[..|z|] == z && t[|z|..] == s;
    ZerosValue(z);
  }

  lemma {:induction false} ZerosValue(z: string)
    requires forall i :: 0 <= i < |z| ==> z[i] == '0'
    ensures AllDigits(z) && DigitsValue(z) == 0
  {
    if |z| > 0 {
      ZerosValue(z[..|z| - 1]);
    }
  }

  // ---------------------------------------------------------------------------
  // String(n)
  // ---------------------------------------------------------------------------

  /** Decimal text of a natural number, without leading zeros, as `n.toString()` writes it. */
  function NatToString(n: nat): (s: string)
    ensures |s| >= 1 && AllDigits(s) && DigitsValue(s) == n
    ensures |s| > 1 ==> s[0] != '0'
    ensures n < 10 <==> |s| == 1
  {
    if n < 10 then [DigitChar(n)]
    else
      var hi := NatToString(n / 10);
      var s := hi + [DigitChar(n % 10)];
      assert s[..|s| - 1] == hi;
      s
  }

  /** `String(n)` for an integer: a minus sign before the digits of a negative number. */
  function IntToString(n: int): (s: string)
    ensures n >= 0 ==> s == NatToString(n)
    ensures n < 0 ==> |s| >= 2 && s[0] == '-' && s[1..] == NatToString(-n)
  {
    if n < 0 then "-" + NatToString(-n) else NatToString(n)
  }

  // ---------------------------------------------------------------------------
  // padStart, slice, startsWith, split
  // ---------------------------------------------------------------------------

  /** `s.padStart(width, fill)`: fill on the left up to `width`, never truncating. */
  function PadStart(s: string, width: nat, fill: char): (r: string)
    ensures |r| == if |s| >= width then |s| else width
    ensures r[|r| - |s|..] == s
    ensures forall i :: 0 <= i < |r| - |s| ==> r[i] == fill
  {
    if |s| >= width then s else seq(width - |s|, _ => fill) + s
  }

  /** A digit run left-padded with zeros keeps its value. */
  lemma PadStartDigits(s: string, width: nat)
    requires AllDigits(s)
    ensures AllDigits(PadStart(s, width, '0'))
    ensures DigitsValue(PadStart(s, width, '0')) == DigitsValue(s)
  {
    var r := PadStart(s, width, '0');
    var z := r[..|r| - |s|];
    assert r == z + s;
    ZerosPrefix(z, s);
  }

  /** How `String.prototype.slice` resolves one index: negative counts back from the end, and the result is clamped to [0, len]. */
  function SliceIndex(len: nat, k: int): (r: nat)
    ensures r <= len
    ensures 0 <= k <= len ==> r == k
    ensures -(len as int) <= k < 0 ==> r as int == len as int + k
  {
    if k < 0 then (if len + k < 0 then 0 else len + k)
    else if k > len then len
    else k
  }

  /** `s.slice(start, end)`; an empty string when the resolved range is empty. */
  function Slice(s: string, start: int, end: int): (r: string)
    ensures SliceIndex(|s|, start) < SliceIndex(|s|, end) ==> r == s[SliceIndex(|s|, start)..SliceIndex(|s|, end)]
    ensures SliceIndex(|s|, start) >= SliceIndex(|s|, end) ==> r == ""
  {
    var a := SliceIndex(|s|, start);
    var b := SliceIndex(|s|, end);
    if a < b then s[a..b] else ""
  }

  /** `s.startsWith(p)`. */
  predicate StartsWith(s: string, p: string) {
    |p| <= |s| && s[..|p|] == p
  }

  /** `s.split(sep)` for a one-character separator: the pieces between separators, always at least one. */
  function Split(s: string, sep: char): (parts: seq<string>)
    ensures |parts| >= 1
    ensures forall k :: 0 <= k < |parts| ==> sep !in parts[k]
  {
    if |s| == 0 then [""]
    else if s[0] == sep then [""] + Split(s[1..], sep)
    else
      var rest := Split(s[1..], sep);
      [[s[0]] + rest[0]] + rest[1..]
  }

  /** A piece free of the separator, followed by the separator, splits off as one part. */
  lemma {:induction false} SplitCons(a: string, sep: char, rest: string)
    requires sep !in a
    ensures Split(a + [sep] + rest, sep) == [a] + Split(rest, sep)
  {
    if |a| == 0 {
      assert a + [sep] + rest == [sep] + rest;
      assert ([sep] + rest)[1..] == rest;
    } else {
      var s := a + [sep] + rest;
      assert s[0] == a[0];
      assert s[1..] == a[1..] + [sep] + rest;
      SplitCons(a[1..], sep, rest);
      assert [a[0]] + a[1..] == a;
    }
  }

  /** Text without the separator splits into just itself. */
  lemma {:induction false} SplitNone(a: string, sep: char)
    requires sep !in a
    ensures Split(a, sep) == [a]
  {
    if |a| > 0 {
      SplitNone(a[1..], sep);
      assert [a[0]] + a[1..] == a;
    }
  }

  // ---------------------------------------------------------------------------
  // Number(s) and parseInt(s, 10)
  // ---------------------------------------------------------------------------

  /** The white space and line terminators JavaScript trims before reading a number. */
  predicate IsSpace(c: char) {
    || c == ' ' || c == '\t' || c == '\n' || c == '\r'
    || c as int == 0x0B || c as int == 0x0C || c as int == 0xA0 || c as int == 0x1680
    || (0x2000 <= c as int <= 0x200A)
    || c as int == 0x2028 || c as int == 0x2029 || c as int == 0x202F
    || c as int == 0x205F || c as int == 0x3000 || c as int == 0xFEFF
  }

  function TrimStart(s: string): (r: string)
    ensures |r| <= |s| && r == s[|s| - |r|..]
    ensures |r| > 0 ==> !IsSpace(r[0])
    ensures (|s| == 0 || !IsSpace(s[0])) ==> r == s
  {
    if |s| > 0 && IsSpace(s[0]) then TrimStart(s[1..]) else s
  }

  function TrimEnd(s: string): (r: string)
    ensures |r| <= |s| && r == s[..|r|]
    ensures |r| > 0 ==> !IsSpace(r[|r| - 1])
    ensures (|s| == 0 || !IsSpace(s[|s| - 1])) ==> r == s
  {
    if |s| > 0 && IsSpace(s[|s| - 1]) then TrimEnd(s[..|s| - 1]) else s
  }

  /** The longest prefix made of digits. */
  function DigitPrefix(s: string): (p: string)
    ensures AllDigits(p) && |p| <= |s| && p == s[..|p|]
    ensures |p| < |s| ==> !IsDigit(s[|p|])
  {
    if |s| > 0 && IsDigit(s[0]) then [s[0]] + DigitPrefix(s[1..]) else []
  }

  /** A leading sign, if any, and the text after it. */
  function SplitSign(t: string): (bool, string) {
    if |t| > 0 && (t[0] == '-' || t[0] == '+') then (t[0] == '-', t[1..]) else (false, t)
  }

  function Signed(negative: bool, magnitude: nat): int {
    if negative then -(magnitude as int) else magnitude
  }

  /**
   `parseInt(s, 10)` on integer text: leading white space, an optional sign, then as
   many digits as there are; anything after them is ignored; no digit at all is NaN.
   */
  function ParseInt(s: string): (r: Option<int>)
    ensures r.None? <==> |DigitPrefix(SplitSign(TrimStart(s)).1)| == 0
  {
    var (negative, body) := SplitSign(TrimStart(s));
    var digits := DigitPrefix(body);
    if |digits| == 0 then None else Some(Signed(negative, DigitsValue(digits)))
  }

  /**
   `Number(s)` on integer text: surrounding white space is ignored, empty text is 0,
   otherwise an optional sign and at least one digit must make up all of it.
   Fractions, exponents, hexadecimal and `Infinity` are outside this model.
   */
  function ToNumber(s: string): (r: Option<int>)
    ensures |Trim(s)| == 0 ==> r == Some(0)
    ensures r.None? <==> |Trim(s)| > 0 && !(|SplitSign(Trim(s)).1| > 0 && AllDigits(SplitSign(Trim(s)).1))
    ensures r.Some? && |Trim(s)| > 0 ==> r.value == Signed(SplitSign(Trim(s)).0, DigitsValue(SplitSign(Trim(s)).1))
  {
    var t := Trim(s);
    if |t| == 0 then Some(0)
    else
      var (negative, body) := SplitSign(t);
      if |body| > 0 && AllDigits(body) then Some(Signed(negative, DigitsValue(body))) else None
  }

  function Trim(s: string): string { TrimEnd(TrimStart(s)) }

  /** On a non-empty digit run, both `parseInt` and `Number` read its decimal value. */
  lemma ReadDigits(s: string)
    requires |s| > 0 && AllDigits(s)
    ensures ParseInt(s) == Some(DigitsValue(s) as int)
    ensures ToNumber(s) == Some(DigitsValue(s) as int)
  {
    ParseIntDigits(s);
    ToNumberDigits(s);
  }

  lemma ParseIntDigits(s: string)
    requires |s| > 0 && AllDigits(s)
    ensures ParseInt(s) == Some(DigitsValue(s) as int)
  {
    assert !IsSpace(s[0]);
    var t := TrimStart(s);
    assert t == s;
    assert SplitSign(t) == (false, s);
    DigitPrefixAll(s);
  }

  lemma ToNumberDigits(s: string)
    requires |s| > 0 && AllDigits(s)
    ensures ToNumber(s) == Some(DigitsValue(s) as int)
  {
    TrimDigits(s);
    UnsignedDigits(s);
    ToNumberUnsigned(s, s);
  }

  lemma UnsignedDigits(s: string)
    requires |s| > 0 && AllDigits(s)
    ensures SplitSign(s) == (false, s)
  {
    assert IsDigit(s[0]);
  }

  lemma ToNumberUnsigned(s: string, t: string)
    requires Trim(s) == t && |t| > 0 && SplitSign(t) == (false, t) && AllDigits(t)
    ensures ToNumber(s) == Some(DigitsValue(t) as int)
  {
  }

  /** Digit text has no white space to trim. */
  lemma TrimDigits(s: string)
    requires |s| > 0 && AllDigits(s)
    ensures Trim(s) == s
  {
    assert !IsSpace(s[0]) && !IsSpace(s[|s| - 1]);
    assert TrimStart(s) == s;
  }

  lemma {:induction false} DigitPrefixAll(s: string)
    requires AllDigits(s)
    ensures DigitPrefix(s) == s
  {
    if |s| > 0 {
      DigitPrefixAll(s[1..]);
      assert [s[0]] + s[1..] == s;
    }
  }

  // ---------------------------------------------------------------------------
  // The remainder operator
  // ---------------------------------------------------------------------------

  /**
   JavaScript's `a % n` on integers: truncated, so it takes the sign of `a`.
   `DayClock.RemDay` is the same operator on the real-valued playback clock.
   */
  function Rem(a: int, n: int): (r: int)
    requires n > 0
    ensures -n < r < n
    ensures a >= 0 ==> r == a % n
    ensures a < 0 ==> r <= 0
  {
    if a >= 0 then a % n else -((-a) % n)
  }

  /** The idiom `((a % n) + n) % n` turns the truncated remainder into the mathematical one. */
  lemma RemWrap(a: int, n: int)
    requires n > 0
    ensures Rem(Rem(a, n) + n, n) == a % n
  {
    if a >= 0 {
      DivModUnique(a % n + n, n, a / n * 0 + 1, a % n);
    } else {
      var q, m := (-a) / n, (-a) % n;
      if m == 0 {
        DivModUnique(a, n, -q, 0);
        DivModUnique(n, n, 1, 0);
      } else {
        assert a == -(q + 1) * n + (n - m);
        DivModUnique(a, n, -(q + 1), n - m);
        DivModUnique(n - m, n, 0, n - m);
      }
    }
  }
}
