/**
 * The two seconds-to-text helpers of src/App.tsx: `formatTime` (the
 * running timer, MM:SS) and `formatDuration` (the statistics, H小时M分钟
 * or M分钟), with parsers that read the text back.
 */
module TimeFormat {
  import opened Types

  predicate IsDigit(c: char) { '0' <= c <= '9' }

  predicate AllDigits(s: string) { forall i :: 0 <= i < |s| ==> IsDigit(s[i]) }

  function DigitChar(d: nat): (c: char)
    requires d < 10
    ensures IsDigit(c)
  {
    ['0', '1', '2', '3', '4', '5', '6', '7', '8', '9'][d]
  }

  function DigitValue(c: char): (d: nat)
    requires IsDigit(c)
    ensures d < 10
  {
    (c as int - '0' as int) as nat
  }

  lemma DigitRoundTrip(d: nat)
    requires d < 10
    ensures DigitValue(DigitChar(d)) == d
  {
  }

  /** Decimal rendering of a natural number, as `Number.prototype.toString()` gives it. */
  function Decimal(n: nat): (s: string)
    ensures |s| >= 1 && AllDigits(s)
    ensures (|s| == 1) <==> n < 10
    ensures (|s| == 2) <==> 10 <= n < 100
    ensures |s| > 1 ==> s[0] != '0'
    decreases n
  {
    if n < 10 then [DigitChar(n)] else Decimal(n / 10) + [DigitChar(n % 10)]
  }

  /** The value of a string of decimal digits (leading zeros allowed). */
  function ParseDecimal(s: string): nat
    requires AllDigits(s)
    decreases |s|
  {
    if s == [] then 0 else ParseDecimal(s[..|s| - 1]) * 10 + DigitValue(s[|s| - 1])
  }

  lemma {:induction false} DecimalRoundTrip(n: nat)
    ensures ParseDecimal(Decimal(n)) == n
    decreases n
  {
    var s := Decimal(n);
    if n < 10 {
      DigitRoundTrip(n);
    } else {
      assert s[..|s| - 1] == Decimal(n / 10);
      DecimalRoundTrip(n / 10);
      DigitRoundTrip(n % 10);
    }
  }

  lemma {:induction false} LeadingZeroIgnored(s: string)
    requires AllDigits(s)
    ensures AllDigits("0" + s) && ParseDecimal("0" + s) == ParseDecimal(s)
    decreases |s|
  {
    if s != [] {
      var z := "0" + s;
      assert z[..|z| - 1] == "0" + s[..|s| - 1];
      LeadingZeroIgnored(s[..|s| - 1]);
    }
  }

  /** `padStart(2, '0')`: prefix zeros up to two characters; never truncates. */
  function PadTwo(s: string): (r: string)
    ensures |r| == if |s| >= 2 then |s| else 2
    ensures r[|r| - |s|..] == s
    ensures forall i :: 0 <= i < |r| - |s| ==> r[i] == '0'
  {
    if |s| >= 2 then s else Repeat('0', 2 - |s|) + s
  }

  function Repeat(c: char, k: nat): (r: string)
    ensures |r| == k && forall i :: 0 <= i < k ==> r[i] == c
  {
    if k == 0 then [] else [c] + Repeat(c, k - 1)
  }

  lemma PadTwoDecimal(n: nat)
    ensures |PadTwo(Decimal(n))| == if n < 100 then 2 else |Decimal(n)|
    ensures AllDigits(PadTwo(Decimal(n)))
    ensures ParseDecimal(PadTwo(Decimal(n))) == n
  {
    DecimalRoundTrip(n);
    if n < 10 {
      assert PadTwo(Decimal(n)) == "0" + Decimal(n);
      LeadingZeroIgnored(Decimal(n));
    }
  }

  /** `formatTime` (src/App.tsx:38-42): minutes and seconds, each padded to two digits. */
  function FormatTime(seconds: nat): (r: string)
    ensures |r| >= 5 && r[|r| - 3] == ':'
    ensures seconds < 6000 ==> |r| == 5
  {
    PadTwo(Decimal(seconds / 60)) + ":" + PadTwo(Decimal(seconds % 60))
  }

  /** Reads a MM:SS text back: digits, a colon, and exactly two digits of seconds below 60. */
  function ParseTime(t: string): Option<nat>
  {
    if |t| >= 4 && t[|t| - 3] == ':' && AllDigits(t[..|t| - 3]) && AllDigits(t[|t| - 2..])
       && ParseDecimal(t[|t| - 2..]) < 60
    then Some(ParseDecimal(t[..|t| - 3]) * 60 + ParseDecimal(t[|t| - 2..]))
    else None
  }

  /** The timer text always has a colon three from the end and digits elsewhere;
      below 100 minutes it is exactly five characters with the colon at index 2. */
  lemma FormatTimeShape(seconds: nat)
    ensures var r := FormatTime(seconds);
      |r| >= 5 && r[|r| - 3] == ':' && AllDigits(r[..|r| - 3]) && AllDigits(r[|r| - 2..])
      && (seconds < 6000 ==> |r| == 5 && r[2] == ':')
  {
    var m, s := seconds / 60, seconds % 60;
    var a, b := PadTwo(Decimal(m)), PadTwo(Decimal(s));
    PadTwoDecimal(m);
    PadTwoDecimal(s);
    var r := a + ":" + b;
    assert r == FormatTime(seconds);
    assert |b| == 2;
    assert r[..|r| - 3] == a;
    assert r[|r| - 2..] == b;
    assert r[|a|] == ':';
  }

  /** A digit run, a colon and two digits below 60 read back as minutes and seconds. */
  lemma ParseTimeParts(a: string, b: string)
    requires |a| >= 1 && AllDigits(a) && |b| == 2 && AllDigits(b) && ParseDecimal(b) < 60
    ensures ParseTime(a + ":" + b) == Some(ParseDecimal(a) * 60 + ParseDecimal(b))
  {
    var r := a + ":" + b;
    var minutes, secs := r[..|r| - 3], r[|r| - 2..];
    assert minutes == a && secs == b;
    assert |r| >= 4 && r[|r| - 3] == ':' && AllDigits(minutes) && AllDigits(secs) && ParseDecimal(secs) < 60;
    assert ParseTime(r) == Some(ParseDecimal(minutes) * 60 + ParseDecimal(secs));
  }

  /** Reading the timer text back gives the seconds it was made from. */
  lemma FormatTimeRoundTrip(seconds: nat)
    ensures ParseTime(FormatTime(seconds)) == Some(seconds)
  {
    var m, s := seconds / 60, seconds % 60;
    PadTwoDecimal(m);
    PadTwoDecimal(s);
    ParseTimeParts(PadTwo(Decimal(m)), PadTwo(Decimal(s)));
    assert seconds == m * 60 + s;
  }

  /** Different second counts never show the same timer text. */
  lemma FormatTimeInjective(a: nat, b: nat)
    requires FormatTime(a) == FormatTime(b)
    ensures a == b
  {
    FormatTimeRoundTrip(a);
    FormatTimeRoundTrip(b);
  }

  const HourUnit: string := "小时"
  const MinuteUnit: string := "分钟"

  /** `formatDuration` (src/App.tsx:44-51): whole hours and leftover minutes; seconds dropped. */
  function FormatDuration(seconds: nat): (r: string)
    ensures |r| >= 3 && IsDigit(r[0]) && r[|r| - 2..] == MinuteUnit
  {
    var hours := seconds / 3600;
    var mins := (seconds % 3600) / 60;
    if hours > 0 then Decimal(hours) + HourUnit + Decimal(mins) + MinuteUnit
    else Decimal(mins) + MinuteUnit
  }

  /** Number of leading decimal digits of `s`. */
  function DigitPrefix(s: string): (k: nat)
    ensures k <= |s| && AllDigits(s[..k]) && (k < |s| ==> !IsDigit(s[k]))
  {
    if s == [] || !IsDigit(s[0]) then 0
    else
      var k := DigitPrefix(s[1..]);
      assert s[..k + 1] == [s[0]] + s[1..][..k];
      k + 1
  }

  /** Reads a duration text back as whole minutes: either `M分钟` or `H小时M分钟`
      with H nonzero and M below 60. */
  function ParseDuration(t: string): Option<nat>
  {
    if |t| < 2 || t[|t| - 2..] != MinuteUnit then None
    else ParseDurationBody(t[..|t| - 2])
  }

  function ParseDurationBody(body: string): Option<nat>
  {
    var k := DigitPrefix(body);
    if k == 0 then None
    else if k == |body| then Some(ParseDecimal(body))
    else ParseHoursPart(body[..k], body[k..])
  }

  function ParseHoursPart(hours: string, tail: string): Option<nat>
    requires AllDigits(hours)
  {
    if |tail| < 3 || tail[..2] != HourUnit || !AllDigits(tail[2..]) then None
    else if ParseDecimal(hours) == 0 || ParseDecimal(tail[2..]) >= 60 then None
    else Some(ParseDecimal(hours) * 60 + ParseDecimal(tail[2..]))
  }

  lemma ParseMinutesOnly(mins: nat)
    ensures ParseDuration(Decimal(mins) + MinuteUnit) == Some(mins)
  {
    var m := Decimal(mins);
    var t := m + MinuteUnit;
    assert t[|t| - 2..] == MinuteUnit;
    assert t[..|t| - 2] == m;
    PrefixOfDigits(m, |m|);
    DecimalRoundTrip(mins);
  }

  lemma ParseHoursAndMinutes(hours: nat, mins: nat)
    requires hours > 0 && mins < 60
    ensures ParseDuration(Decimal(hours) + HourUnit + Decimal(mins) + MinuteUnit) == Some(hours * 60 + mins)
  {
    var h, m := Decimal(hours), Decimal(mins);
    var body := h + (HourUnit + m);
    ParseHoursBody(hours, mins);
    var t := body + MinuteUnit;
    assert t == h + HourUnit + m + MinuteUnit;
    assert t[|t| - 2..] == MinuteUnit;
    assert t[..|t| - 2] == body;
  }

  lemma ParseHoursBody(hours: nat, mins: nat)
    requires hours > 0 && mins < 60
    ensures ParseDurationBody(Decimal(hours) + (HourUnit + Decimal(mins))) == Some(hours * 60 + mins)
  {
    var h, m := Decimal(hours), Decimal(mins);
    var tail := HourUnit + m;
    var body := h + tail;
    DecimalRoundTrip(hours);
    DecimalRoundTrip(mins);
    assert tail[..2] == HourUnit && tail[2..] == m;
    assert ParseHoursPart(h, tail) == Some(hours * 60 + mins);
    assert body[..|h|] == h && body[|h|..] == tail;
    assert body[|h|] == '小';
    PrefixOfDigits(body, |h|);
  }

  /** Reading the duration text back gives the whole minutes of the input. */
  lemma FormatDurationRoundTrip(seconds: nat)
    ensures ParseDuration(FormatDuration(seconds)) == Some(seconds / 60)
  {
    var hours := seconds / 3600;
    var mins := (seconds % 3600) / 60;
    assert seconds / 60 == hours * 60 + mins;
    if hours > 0 {
      ParseHoursAndMinutes(hours, mins);
    } else {
      ParseMinutesOnly(mins);
    }
  }

  lemma {:induction false} PrefixOfDigits(s: string, k: nat)
    requires k <= |s| && AllDigits(s[..k]) && (k < |s| ==> !IsDigit(s[k]))
    ensures DigitPrefix(s) == k
    decreases k
  {
    if k > 0 {
      assert IsDigit(s[..k][0]);
      assert s[1..][..k - 1] == s[..k][1..];
      PrefixOfDigits(s[1..], k - 1);
    }
  }

  /** The hours part is shown exactly when at least one whole hour has passed. */
  lemma FormatDurationHours(seconds: nat)
    ensures '小' in FormatDuration(seconds) <==> seconds >= 3600
  {
    var mins := (seconds % 3600) / 60;
    var t := FormatDuration(seconds);
    if seconds >= 3600 {
      assert t[|Decimal(seconds / 3600)|] == '小';
    } else {
      assert t == Decimal(mins) + MinuteUnit;
      assert forall i :: 0 <= i < |Decimal(mins)| ==> t[i] == Decimal(mins)[i];
    }
  }

  /** The whole hours and leftover minutes of a number of seconds, computed
      from its whole minutes. */
  lemma HoursAndMinutesOf(seconds: nat)
    ensures seconds / 3600 == (seconds / 60) / 60
    ensures (seconds % 3600) / 60 == (seconds / 60) % 60
  {
    var q, r := seconds / 60, seconds % 60;
    var a, b := q / 60, q % 60;
    assert seconds == a * 3600 + (b * 60 + r);
    assert 0 <= b * 60 + r < 3600;
  }

  /** Seconds below a whole minute never change the duration text: two second
      counts with the same whole minutes show the same text. */
  lemma FormatDurationDropsSeconds(x: nat, y: nat)
    requires x / 60 == y / 60
    ensures FormatDuration(x) == FormatDuration(y)
  {
    HoursAndMinutesOf(x);
    HoursAndMinutesOf(y);
  }

  /** Less than a minute shows as zero minutes. */
  lemma FormatDurationUnderMinute(seconds: nat)
    requires seconds < 60
    ensures FormatDuration(seconds) == "0分钟"
  {
    assert Decimal(0) == "0";
  }
}
