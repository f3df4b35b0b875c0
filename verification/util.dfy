/**
 * The formatting utility shared by the form and the timer: `formatDuration`
 * turns a number of seconds into a zero-padded `MM:SS` string.
 *
 * The displayed values are always integers (elapsed ticks, whole-second
 * durations), so the argument is an `int`. JavaScript's `%` keeps the sign of
 * the dividend, so it is written out below, since Dafny's own `%` is
 * Euclidean. `Math.floor(d / 60)` rounds toward minus infinity, which is what
 * Dafny's `/` already does for the positive divisor 60.
 */
module Util {
  import opened Wrappers

  /** Seconds per minute. */
  const MINUTE: int := 60

  // ---------------------------------------------------------------------
  // Decimal digits, as `Number.prototype.toString` prints an integer
  // ---------------------------------------------------------------------

  predicate IsDigit(c: char) {
    '0' <= c <= '9'
  }

  predicate AllDigits(s: string) {
    forall i :: 0 <= i < |s| ==> IsDigit(s[i])
  }

  function DigitChar(d: int): (c: char)
    requires 0 <= d < 10
    ensures IsDigit(c)
  {
    ('0' as int + d) as char
  }

  function DigitValue(c: char): (d: nat)
    requires IsDigit(c)
    ensures d < 10
  {
    (c as int) - ('0' as int)
  }

  /** The decimal text of a natural number: no sign, no leading zero. */
  function NatToString(n: nat): (s: string)
    ensures |s| >= 1 && AllDigits(s)
    ensures |s| == 1 <==> n < 10
    ensures s[0] == '0' ==> n == 0
    decreases n
  {
    if n < 10 then [DigitChar(n)] else NatToString(n / 10) + [DigitChar(n % 10)]
  }

  /** The decimal text of an integer: a minus sign in front of negatives. */
  function IntToString(n: int): (s: string)
    ensures |s| >= 1
    ensures AllDigits(s) <==> n >= 0
    ensures n >= 0 ==> ParseNat(s) == n
    ensures n < 0 ==> s[0] == '-' && AllDigits(s[1..]) && ParseNat(s[1..]) == -n
  {
    if n < 0 then
      var s := "-" + NatToString(-n);
      assert !IsDigit(s[0]);
      assert s[1..] == NatToString(-n);
      ParseNatToString(-n);
      s
    else
      ParseNatToString(n);
      NatToString(n)
  }

  /** Reads back a string of decimal digits (leading zeros allowed). */
  function ParseNat(s: string): nat
    requires AllDigits(s)
    decreases |s|
  {
    if |s| == 0 then 0 else ParseNat(s[..|s| - 1]) * 10 + DigitValue(s[|s| - 1])
  }

  lemma {:induction false} ParseNatToString(n: nat)
    ensures ParseNat(NatToString(n)) == n
    decreases n
  {
    var s := NatToString(n);
    if n >= 10 {
      assert s[..|s| - 1] == NatToString(n / 10);
      ParseNatToString(n / 10);
    }
  }

  /** A leading zero does not change the value read back. */
  lemma {:induction false} ParseNatLeadingZero(s: string)
    requires AllDigits(s)
    ensures AllDigits("0" + s) && ParseNat("0" + s) == ParseNat(s)
    decreases |s|
  {
    var z := "0" + s;
    if |s| > 0 {
      assert z[..|z| - 1] == "0" + s[..|s| - 1];
      ParseNatLeadingZero(s[..|s| - 1]);
    }
  }

  // ---------------------------------------------------------------------
  // formatDuration
  // ---------------------------------------------------------------------

  /**
   * JavaScript's `a % 60`: the remainder carries the sign of `a`. It agrees
   * with the Euclidean remainder on non-negative input, and on negative input
   * that 60 does not divide it is that remainder shifted down by 60.
   */
  function JsRemMinute(a: int): (r: int)
    ensures -MINUTE < r < MINUTE
    ensures a >= 0 ==> r == a % MINUTE
    ensures a < 0 ==> r == if a % MINUTE == 0 then 0 else a % MINUTE - MINUTE
  {
    if a >= 0 then a % MINUTE else -((-a) % MINUTE)
  }

  /** A field of fewer than two characters gets one `0` in front; longer fields are kept whole. */
  function PadField(s: string): (p: string)
    ensures |s| < 2 ==> p == "0" + s
    ensures |s| >= 2 ==> p == s
  {
    if |s| < 2 then "0" + s else s
  }

  function SecondsField(d: int): string {
    PadField(IntToString(JsRemMinute(d)))
  }

  function MinutesField(d: int): string {
    PadField(IntToString(d / MINUTE))
  }

  /**
   * `formatDuration(d)`: minutes, a colon, then seconds. A non-negative
   * duration gives at least two minute digits and exactly two second digits;
   * a negative one starts with a minus sign.
   */
  function FormatDuration(d: int): (r: string)
    ensures |r| >= 5
    ensures d >= 0 ==>
      && r[|r| - 3] == ':'
      && AllDigits(r[..|r| - 3]) && AllDigits(r[|r| - 2..])
    ensures d < 0 ==> r[0] == '-'
  {
    var m := MinutesField(d);
    var s := SecondsField(d);
    FieldShapes(d);
    var r := m + ":" + s;
    assert d >= 0 ==> r[..|r| - 3] == m && r[|r| - 2..] == s;
    r
  }

  /** The shapes of the two fields, without their values. */
  lemma FieldShapes(d: int)
    ensures |MinutesField(d)| >= 2 && |SecondsField(d)| >= 2
    ensures d >= 0 ==> |SecondsField(d)| == 2 && AllDigits(SecondsField(d)) && AllDigits(MinutesField(d))
    ensures d < 0 ==> MinutesField(d)[0] == '-'
  {
    if d >= 0 {
      FieldsOfNonNegative(d);
    } else {
      MinutesFieldOfNegative(d);
    }
  }

  // ---------------------------------------------------------------------
  // Reading an `MM:SS` string back
  // ---------------------------------------------------------------------

  /** Position of the first `c` in `s`, if any. */
  function IndexOf(s: string, c: char): (r: Option<nat>)
    ensures r.Some? ==> r.value < |s| && s[r.value] == c
    decreases |s|
  {
    if |s| == 0 then None
    else if s[0] == c then Some(0)
    else match IndexOf(s[1..], c)
      case None => None
      case Some(i) => Some(i + 1)
  }

  /** Two non-empty runs of digits, worth `minutes * 60 + seconds`. */
  function ReadFields(m: string, s: string): Option<int> {
    if |m| > 0 && |s| > 0 && AllDigits(m) && AllDigits(s)
    then Some(ParseNat(m) * MINUTE + ParseNat(s))
    else None
  }

  /** Reads a clock string: the fields on either side of the first colon. */
  function ParseClock(t: string): Option<int> {
    match IndexOf(t, ':')
    case None => None
    case Some(i) => ReadFields(t[..i], t[i + 1..])
  }

  /**
   * For a non-negative duration the seconds field is exactly two digits worth
   * `d % 60`, and the minutes field is at least two digits worth `d / 60`
   * (never truncated).
   */
  lemma FieldsOfNonNegative(d: int)
    requires d >= 0
    ensures |SecondsField(d)| == 2 && AllDigits(SecondsField(d))
    ensures ParseNat(SecondsField(d)) == d % MINUTE < MINUTE
    ensures |MinutesField(d)| >= 2 && AllDigits(MinutesField(d))
    ensures d / MINUTE < 10 ==> |MinutesField(d)| == 2
    ensures d / MINUTE >= 10 ==> MinutesField(d) == NatToString(d / MINUTE)
    ensures ParseNat(MinutesField(d)) == d / MINUTE
    ensures ParseNat(MinutesField(d)) * MINUTE + ParseNat(SecondsField(d)) == d
  {
    var sec := NatToString(d % MINUTE);
    var min := NatToString(d / MINUTE);
    ParseNatToString(d % MINUTE);
    ParseNatToString(d / MINUTE);
    if |sec| < 2 {
      ParseNatLeadingZero(sec);
    }
    if d % MINUTE >= 10 {
      assert |sec| != 1;
      assert sec == NatToString(d % MINUTE / 10) + [DigitChar(d % MINUTE % 10)];
      assert |sec| == 2;
    }
    if |min| < 2 {
      ParseNatLeadingZero(min);
    }
  }

  /** For a negative duration the minutes field starts with a minus sign. */
  lemma MinutesFieldOfNegative(d: int)
    requires d < 0
    ensures |MinutesField(d)| >= 2 && MinutesField(d)[0] == '-'
  {
  }

  lemma {:induction false} IndexOfFirst(a: string, b: string, c: char)
    requires forall i :: 0 <= i < |a| ==> a[i] != c
    ensures IndexOf(a + [c] + b, c) == Some(|a|)
    decreases |a|
  {
    if |a| > 0 {
      assert (a + [c] + b)[1..] == a[1..] + [c] + b;
      IndexOfFirst(a[1..], b, c);
    }
  }

  /** Slicing around the separator gives back the two parts. */
  lemma SplitAround(m: string, s: string, c: char)
    ensures (m + [c] + s)[..|m|] == m && (m + [c] + s)[|m| + 1..] == s
  {
  }

  /** Two non-empty runs of digits around a colon read as a clock. */
  lemma ParseClockOfFields(m: string, s: string)
    requires |m| > 0 && |s| > 0 && AllDigits(m) && AllDigits(s)
    ensures ParseClock(m + ":" + s) == Some(ParseNat(m) * MINUTE + ParseNat(s))
  {
    forall i | 0 <= i < |m|
      ensures m[i] != ':'
    {
      assert IsDigit(m[i]);
    }
    IndexOfFirst(m, s, ':');
    SplitAround(m, s, ':');
  }

  lemma ClockOfNonNegative(d: int)
    requires d >= 0
    ensures ParseClock(FormatDuration(d)) == Some(d)
  {
    ClockOfFields(d);
    FieldsValue(d);
  }

  /** The two fields of a non-negative duration add back up to it. */
  lemma FieldsValue(d: int)
    requires d >= 0
    ensures AllDigits(MinutesField(d)) && AllDigits(SecondsField(d))
    ensures ParseNat(MinutesField(d)) * MINUTE + ParseNat(SecondsField(d)) == d
  {
    FieldsOfNonNegative(d);
  }

  /** A non-negative duration's text reads back as its two fields, minutes first. */
  lemma ClockOfFields(d: int)
    requires d >= 0
    ensures AllDigits(MinutesField(d)) && AllDigits(SecondsField(d))
    ensures ParseClock(FormatDuration(d)) ==
      Some(ParseNat(MinutesField(d)) * MINUTE + ParseNat(SecondsField(d)))
  {
    FieldShapes(d);
    ParseClockOfFields(MinutesField(d), SecondsField(d));
  }

  lemma NoClockOfNegative(d: int)
    requires d < 0
    ensures ParseClock(FormatDuration(d)) == None
  {
    var t := FormatDuration(d);
    MinutesFieldOfNegative(d);
    assert t[0] == '-';
    match IndexOf(t, ':')
    case None =>
    case Some(i) =>
      if i > 0 {
        assert t[..i][0] == '-';
        assert !IsDigit(t[..i][0]);
      }
  }

  /**
   * Round trip: a non-negative duration reads back from its `MM:SS` text;
   * a negative one does not read as a clock at all.
   */
  lemma FormatDurationRoundTrip(d: int)
    ensures ParseClock(FormatDuration(d)) == if d >= 0 then Some(d) else None
  {
    if d >= 0 {
      ClockOfNonNegative(d);
    } else {
      NoClockOfNegative(d);
    }
  }

  /** Three sample values. */
  lemma FormatDurationExamples()
    ensures FormatDuration(125) == "02:05"
    ensures FormatDuration(59) == "00:59"
    ensures FormatDuration(60) == "01:00"
  {
    TwoMinutesFive();
    FiftyNineSeconds();
    OneMinute();
  }

  lemma TwoMinutesFive()
    ensures FormatDuration(125) == "02:05"
  {
    assert IntToString(2) == "2" && IntToString(5) == "5";
    assert MinutesField(125) == "02" && SecondsField(125) == "05";
  }

  lemma FiftyNineSeconds()
    ensures FormatDuration(59) == "00:59"
  {
    assert IntToString(0) == "0" && IntToString(59) == "59";
    assert MinutesField(59) == "00" && SecondsField(59) == "59";
  }

  lemma OneMinute()
    ensures FormatDuration(60) == "01:00"
  {
    assert IntToString(1) == "1" && IntToString(0) == "0";
    assert MinutesField(60) == "01" && SecondsField(60) == "00";
  }

  /** Mixed signs for negative input: -5 seconds shows as `-1:-5`. */
  lemma FormatDurationNegativeExample()
    ensures FormatDuration(-5) == "-1:-5"
  {
  }
}
