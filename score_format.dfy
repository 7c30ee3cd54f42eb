/** Decimal rendering as done by Kotlin string templates and by
    `String.format("%02d:%02d", minutes, seconds)` for run times in milliseconds. */
module ScoreFormat {
  import opened Num

  predicate IsDigit(c: char) { '0' <= c <= '9' }

  predicate AllDigits(s: string) { forall k :: 0 <= k < |s| ==> IsDigit(s[k]) }

  function DigitChar(d: int): (c: char)
    requires 0 <= d <= 9
    ensures IsDigit(c) && c as int - '0' as int == d
  {
    ('0' as int + d) as char
  }

  /** The value of a string of decimal digits, read left to right. */
  function DecimalValue(s: string): (n: nat)
    requires AllDigits(s)
  {
    if |s| == 0 then 0 else DecimalValue(s[..|s| - 1]) * 10 + (s[|s| - 1] as int - '0' as int)
  }

  /** The shortest decimal spelling of `n`, as `Long.toString` prints it. */
  function NatToString(n: nat): (s: string)
    ensures |s| >= 1 && AllDigits(s)
    ensures (|s| == 1) == (n < 10)
    decreases n
  {
    if n < 10 then [DigitChar(n)] else NatToString(n / 10) + [DigitChar(n % 10)]
  }

  lemma {:induction false} NatToStringRoundTrip(n: nat)
    ensures DecimalValue(NatToString(n)) == n
    decreases n
  {
    if n >= 10 {
      var s := NatToString(n);
      assert s[..|s| - 1] == NatToString(n / 10);
      NatToStringRoundTrip(n / 10);
    }
  }

  /** Distinct numbers print differently. */
  lemma NatToStringInjective(a: nat, b: nat)
    requires NatToString(a) == NatToString(b)
    ensures a == b
  {
    NatToStringRoundTrip(a);
    NatToStringRoundTrip(b);
  }

  /** A leading zero does not change the value of a digit string. */
  lemma {:induction false} LeadingZero(s: string)
    requires AllDigits(s)
    ensures AllDigits("0" + s) && DecimalValue("0" + s) == DecimalValue(s)
    decreases |s|
  {
    if |s| > 0 {
      var t := "0" + s;
      assert t[..|t| - 1] == "0" + s[..|s| - 1];
      LeadingZero(s[..|s| - 1]);
    }
  }

  /** Reads back what `IntToString` prints: an optional minus sign, then digits. */
  function ParseInt(s: string): int
    requires |s| >= 1
    requires s[0] == '-' ==> AllDigits(s[1..])
    requires s[0] != '-' ==> AllDigits(s)
  {
    var v: int := if s[0] == '-' then DecimalValue(s[1..]) else DecimalValue(s);
    if s[0] == '-' then -v else v
  }

  /** `n.toString()` for a Kotlin `Int` or `Long`: a minus sign only for negatives. */
  function IntToString(n: int): (s: string)
    ensures |s| >= 1 && (s[0] == '-') == (n < 0)
    ensures s[0] == '-' ==> AllDigits(s[1..])
    ensures s[0] != '-' ==> AllDigits(s)
    ensures ParseInt(s) == n
  {
    if n < 0 then
      NatToStringRoundTrip(-n);
      assert ("-" + NatToString(-n))[1..] == NatToString(-n);
      "-" + NatToString(-n)
    else
      NatToStringRoundTrip(n);
      NatToString(n)
  }

  /** `String.format("%02d", n)`: at least two characters, zero-padded on the left for
      a single digit; a negative number keeps its sign and already fills the width. */
  function Pad2(n: int): (s: string)
    ensures |s| >= 2
    ensures 0 <= n ==> AllDigits(s) && DecimalValue(s) == n
    ensures 0 <= n < 100 ==> |s| == 2
    ensures n < 0 ==> s[0] == '-' && AllDigits(s[1..]) && ParseInt(s) == n
  {
    if n < 0 then
      IntToString(n)
    else if n < 10 then
      NatToStringRoundTrip(n);
      LeadingZero(NatToString(n));
      "0" + NatToString(n)
    else
      NatToStringRoundTrip(n);
      assert NatToString(n) == NatToString(n / 10) + [DigitChar(n % 10)];
      assert n < 100 ==> n / 10 < 10;
      NatToString(n)
  }

  /** The minutes part of a run time in milliseconds (`time / 60000`). */
  function Minutes(t: int): int
  {
    KDiv(t, 60000)
  }

  /** The seconds part of a run time in milliseconds (`(time % 60000) / 1000`). */
  function Seconds(t: int): int
  {
    KDiv(KRem(t, 60000), 1000)
  }

  /** The "mm:ss" text shown for a run time. */
  function TimeString(t: int): string
  {
    Pad2(Minutes(t)) + ":" + Pad2(Seconds(t))
  }

  /** The two parts split a non-negative time exactly: whole minutes, then whole
      seconds below a minute, with less than a second left over; a negative time
      gives a non-positive seconds part above -60. */
  lemma TimeParts(t: int)
    ensures t >= 0 ==> 0 <= Minutes(t) && 0 <= Seconds(t) <= 59
    ensures t >= 0 ==> Minutes(t) * 60000 + Seconds(t) * 1000 <= t < Minutes(t) * 60000 + Seconds(t) * 1000 + 1000
    ensures t < 0 ==> Minutes(t) <= 0 && -59 <= Seconds(t) <= 0
  {
  }

  /** For a non-negative time the text is the minutes (two digits or more), a colon,
      and exactly two digits of seconds, and both parts read back as the numbers. */
  lemma TimeStringReadsBack(t: int)
    requires t >= 0
    ensures var s := TimeString(t);
      |s| >= 5 && s[|s| - 3] == ':'
      && AllDigits(s[..|s| - 3]) && DecimalValue(s[..|s| - 3]) == Minutes(t)
      && AllDigits(s[|s| - 2..]) && DecimalValue(s[|s| - 2..]) == Seconds(t)
  {
    TimeParts(t);
    var m := Pad2(Minutes(t));
    var c := Pad2(Seconds(t));
    var s := TimeString(t);
    assert |c| == 2;
    assert s[..|s| - 3] == m;
    assert s[|s| - 2..] == c;
  }
}
