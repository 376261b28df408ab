/** `formatTime` of src/script.js: a count of seconds shown as `MM:SS`,
    each field the decimal text of the number padded on the left with `0`
    to at least two characters. */
module ClockFormat {
  import opened Wrappers
  import opened Text

  predicate IsDigit(c: char) {
    '0' <= c <= '9'
  }

  predicate AllDigits(s: string) {
    forall i :: 0 <= i < |s| ==> IsDigit(s[i])
  }

  function DigitChar(d: nat): (c: char)
    requires d < 10
    ensures IsDigit(c) && c as int - '0' as int == d
  {
    "0123456789"[d]
  }

  /** `n.toString()` for a non-negative integer: decimal, no leading zero. */
  function Decimal(n: nat): (r: string)
    ensures |r| >= 1 && AllDigits(r)
    ensures r[0] == '0' ==> n == 0
  {
    if n < 10 then [DigitChar(n)] else Decimal(n / 10) + [DigitChar(n % 10)]
  }

  /** The value of a string of decimal digits (the reading direction of
      `Decimal`). */
  function DigitsValue(s: string): nat
    requires AllDigits(s)
  {
    PrefixValue(s, |s|)
  }

  /** The value of the first `n` digits of `s`. */
  function PrefixValue(s: string, n: nat): nat
    requires AllDigits(s) && n <= |s|
  {
    if n == 0 then 0 else PrefixValue(s, n - 1) * 10 + (s[n - 1] as int - '0' as int)
  }

  /** `padStart(2, "0")`. */
  function PadTwo(s: string): (r: string)
    ensures |r| == if |s| < 2 then 2 else |s|
    ensures forall i :: 0 <= i < |s| ==> r[|r| - |s| + i] == s[i]
    ensures forall i :: 0 <= i < |r| - |s| ==> r[i] == '0'
  {
    if |s| >= 2 then s else if |s| == 1 then "0" + s else "00"
  }

  /** `formatTime(s)`. Its argument is the timer's remaining time, which the
      timer keeps non-negative. */
  function FormatTime(s: nat): string {
    PadTwo(Decimal(s / 60)) + ":" + PadTwo(Decimal(s % 60))
  }

  /** A non-empty run of decimal digits read as a number. */
  function ParseField(f: string): (r: Option<nat>)
    ensures r.Some? <==> f != [] && AllDigits(f)
  {
    if f != [] && AllDigits(f) then Some(DigitsValue(f)) else None
  }

  /** Reads `MM:SS` back: both fields non-empty decimal digits, separated at
      the first colon. */
  function ParseClock(t: string): Option<nat> {
    match IndexOf(t, ":")
    case None => None
    case Some(i) =>
      match (ParseField(t[..i]), ParseField(t[i + 1..]))
      case (Some(m), Some(sec)) => Some(m * 60 + sec)
      case _ => None
  }

  /** Appending a digit leaves the value of the earlier prefixes alone. */
  lemma {:induction false} PrefixValueAppend(a: string, c: char, n: nat)
    requires AllDigits(a) && IsDigit(c) && n <= |a|
    ensures AllDigits(a + [c]) && PrefixValue(a + [c], n) == PrefixValue(a, n)
  {
    if n > 0 {
      PrefixValueAppend(a, c, n - 1);
      assert (a + [c])[n - 1] == a[n - 1];
    }
  }

  lemma {:induction false} DecimalValue(n: nat)
    ensures DigitsValue(Decimal(n)) == n
  {
    if n >= 10 {
      var d := Decimal(n / 10);
      var c := DigitChar(n % 10);
      var s := d + [c];
      assert s[|s| - 1] == c;
      PrefixValueAppend(d, c, |d|);
      DecimalValue(n / 10);
      assert DigitsValue(s) == PrefixValue(s, |d|) * 10 + n % 10;
      assert n == n / 10 * 10 + n % 10;
    } else {
      var s := Decimal(n);
      assert DigitsValue(s) == PrefixValue(s, 0) * 10 + (s[0] as int - '0' as int);
    }
  }

  /** A leading zero does not change the value of a digit prefix. */
  lemma {:induction false} LeadingZeroPrefix(s: string, k: nat)
    requires AllDigits(s) && k <= |s|
    ensures AllDigits("0" + s) && PrefixValue("0" + s, k + 1) == PrefixValue(s, k)
  {
    if k > 0 {
      LeadingZeroPrefix(s, k - 1);
      assert ("0" + s)[k] == s[k - 1];
    }
  }

  /** A leading zero does not change the value of a digit string. */
  lemma LeadingZeroValue(s: string)
    requires AllDigits(s)
    ensures AllDigits("0" + s) && DigitsValue("0" + s) == DigitsValue(s)
  {
    LeadingZeroPrefix(s, |s|);
  }

  /** Padding keeps a digit string a digit string of the same value. */
  lemma PadTwoValue(s: string)
    requires AllDigits(s)
    ensures AllDigits(PadTwo(s)) && DigitsValue(PadTwo(s)) == DigitsValue(s)
  {
    if |s| == 1 {
      LeadingZeroValue(s);
    } else if |s| == 0 {
      LeadingZeroValue("");
      LeadingZeroValue("0");
      assert "0" + "0" == "00";
    }
  }

  lemma {:induction false} DecimalLength(n: nat)
    ensures n < 10 ==> |Decimal(n)| == 1
    ensures 10 <= n < 100 ==> |Decimal(n)| == 2
    ensures 100 <= n ==> |Decimal(n)| >= 3
  {
    if n >= 10 {
      var q := n / 10;
      assert q < 10 <==> n < 100;
      assert 1 <= q;
      DecimalLength(q);
    }
  }

  /** `ParseClock` reads the two fields either side of the first colon. */
  lemma ParseClockFields(t: string, k: nat, m: nat, sec: nat)
    requires IndexOf(t, ":") == Some(k) && k < |t|
    requires ParseField(t[..k]) == Some(m) && ParseField(t[k + 1..]) == Some(sec)
    ensures ParseClock(t) == Some(m * 60 + sec)
  {
  }

  /** Digits hold no colon. */
  lemma DigitsLackColon(m: string)
    requires AllDigits(m)
    ensures ':' !in m
  {
    forall k | 0 <= k < |m| ensures m[k] != ':' {
      assert IsDigit(m[k]);
    }
  }

  /** Splitting at the first colon recovers the two sides. */
  lemma ColonSplit(m: string, sec: string)
    requires ':' !in m
    ensures var t := m + ":" + sec;
      IndexOf(t, ":") == Some(|m|) && t[..|m|] == m && t[|m| + 1..] == sec
  {
    assert m + ":" + sec == m + [':'] + sec;
    IndexOfAfterPrefix(m, ':', sec);
  }

  /** Two digit fields joined by a colon read back as minutes and seconds. */
  lemma ParseJoined(m: string, sec: string)
    requires m != [] && sec != [] && AllDigits(m) && AllDigits(sec)
    ensures ParseClock(m + ":" + sec) == Some(DigitsValue(m) * 60 + DigitsValue(sec))
  {
    DigitsLackColon(m);
    ColonSplit(m, sec);
    ParseClockFields(m + ":" + sec, |m|, DigitsValue(m), DigitsValue(sec));
  }

  /** Reading the display back gives the number of seconds it shows, for
      every non-negative input. */
  lemma FormatTimeRoundTrip(s: nat)
    ensures ParseClock(FormatTime(s)) == Some(s)
  {
    var m, sec := PadTwo(Decimal(s / 60)), PadTwo(Decimal(s % 60));
    PadTwoValue(Decimal(s / 60));
    PadTwoValue(Decimal(s % 60));
    DecimalValue(s / 60);
    DecimalValue(s % 60);
    ParseJoined(m, sec);
  }

  /** A padded field is two characters wide below one hundred, wider from
      then on. */
  lemma PaddedWidth(n: nat)
    ensures n < 100 ==> |PadTwo(Decimal(n))| == 2
    ensures n >= 100 ==> |PadTwo(Decimal(n))| >= 3
  {
    DecimalLength(n);
  }

  /** Whole minutes stay below one hundred exactly below 6000 seconds. */
  lemma MinutesBelowHundred(s: nat)
    ensures s / 60 < 100 <==> s < 6000
  {
    assert s == 60 * (s / 60) + s % 60;
  }

  /** Two fields joined by a colon, the second two characters wide. */
  lemma JoinWidth(m: string, sec: string)
    requires |sec| == 2
    ensures |m + ":" + sec| == 5 <==> |m| == 2
    ensures |m| == 2 ==> (m + ":" + sec)[2] == ':'
  {
  }

  /** The display is exactly five characters wide below one hundred minutes,
      and wider from then on. */
  lemma FormatTimeWidth(s: nat)
    ensures |FormatTime(s)| == 5 <==> s < 6000
    ensures s < 6000 ==> FormatTime(s)[2] == ':'
  {
    var m, sec := PadTwo(Decimal(s / 60)), PadTwo(Decimal(s % 60));
    MinutesBelowHundred(s);
    PaddedWidth(s / 60);
    PaddedWidth(s % 60);
    JoinWidth(m, sec);
  }

  /** The pieces either side of the colon that precedes the last two
      characters. */
  lemma JoinParts(m: string, sec: string)
    requires |sec| == 2
    ensures var t := m + ":" + sec;
      && |t| - 3 == |m| && t[|m|] == ':'
      && t[..|m|] == m && t[|m| + 1..] == sec
  {
    var t := m + ":" + sec;
    assert t[..|m|] == m;
    assert t[|m| + 1..] == sec;
  }

  /** The shape of two digit fields joined by a colon. */
  lemma DisplayShape(m: string, sec: string, q: nat, r: nat)
    requires |m| >= 2 && |sec| == 2 && AllDigits(m) && AllDigits(sec)
    requires DigitsValue(m) == q && DigitsValue(sec) == r
    requires |m| > 2 ==> m[0] != '0'
    ensures var t := m + ":" + sec;
      var k := |t| - 3;
      && k >= 2 && t[k] == ':'
      && AllDigits(t[..k]) && DigitsValue(t[..k]) == q
      && (k > 2 ==> t[0] != '0')
      && AllDigits(t[k + 1..]) && |t[k + 1..]| == 2 && DigitsValue(t[k + 1..]) == r
  {
    JoinParts(m, sec);
  }

  /** The padded minutes field: at least two digits, and no leading zero
      beyond the padding. */
  lemma PaddedMinutes(q: nat)
    ensures |PadTwo(Decimal(q))| >= 2
    ensures |PadTwo(Decimal(q))| > 2 ==> PadTwo(Decimal(q))[0] != '0'
  {
    if |PadTwo(Decimal(q))| > 2 {
      DecimalLength(q);
    }
  }

  /** The display is the whole minutes, zero-padded to two digits and
      otherwise without a leading zero, a colon, and the remaining seconds
      as exactly two digits. */
  lemma FormatTimeFields(s: nat)
    ensures var t := FormatTime(s);
      var k := |t| - 3;
      && k >= 2 && t[k] == ':'
      && AllDigits(t[..k]) && DigitsValue(t[..k]) == s / 60
      && (k > 2 ==> t[0] != '0')
      && AllDigits(t[k + 1..]) && |t[k + 1..]| == 2 && DigitsValue(t[k + 1..]) == s % 60
  {
    var q, r := s / 60, s % 60;
    var m, sec := PadTwo(Decimal(q)), PadTwo(Decimal(r));
    PaddedWidth(r);
    PaddedMinutes(q);
    PadTwoValue(Decimal(q));
    PadTwoValue(Decimal(r));
    DecimalValue(q);
    DecimalValue(r);
    DisplayShape(m, sec, q, r);
  }

  /** Two displays agree only when the times do. */
  lemma FormatTimeInjective(a: nat, b: nat)
    requires FormatTime(a) == FormatTime(b)
    ensures a == b
  {
    FormatTimeRoundTrip(a);
    FormatTimeRoundTrip(b);
  }

  /** Sixty-five seconds show as `01:05`: both fields padded. */
  lemma FormatTimeShortExample(s: nat)
    requires s == 65
    ensures FormatTime(s) == "01:05"
  {
    assert s / 60 == 1 && s % 60 == 5;
    assert Decimal(1) == "1" && Decimal(5) == "5";
  }

  /** One second short of an hour shows as `59:59`. */
  lemma FormatTimeHourExample(s: nat)
    requires s == 3599
    ensures FormatTime(s) == "59:59"
  {
    assert s / 60 == 59 && s % 60 == 59;
    assert Decimal(59) == "59";
  }

  /** Two hours show as `120:00`: the minutes field is not cut to two
      characters. */
  lemma FormatTimeWideExample(s: nat)
    requires s == 7200
    ensures FormatTime(s) == "120:00"
  {
    assert s / 60 == 120 && s % 60 == 0;
    assert Decimal(120) == "120" && Decimal(0) == "0";
  }
}
