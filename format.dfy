/** The two display formats: `formatTime` (app.js:197-207) for minute totals and
    `formatStopwatchTime` (app.js:932-937) for the stopwatch. Each comes with a reader
    that takes the text apart again, and the round-trip lemmas show that no two values
    are displayed alike. */
module Format {
  import opened Wrappers
  import opened Text
  import opened Arith

  /** `String(n).padStart(2, '0')`: zeros in front up to two characters; longer text is
      left alone. */
  function PadStart2(s: string): (r: string)
    ensures |r| == if |s| < 2 then 2 else |s|
    ensures |s| >= 2 ==> r == s
    ensures |s| < 2 ==> r == seq(2 - |s|, _ => '0') + s
    ensures AllDigits(s) ==> AllDigits(r)
  {
    if |s| == 0 then "00" else if |s| == 1 then "0" + s else s
  }

  /** `formatTime(minutes, showHours)`: plain minutes unless hours are asked for and there
      is at least one; then whole hours, followed by the remaining minutes when there are
      any. */
  function FormatTime(minutes: int, showHours: bool): string
  {
    if !showHours || minutes < 60 then IntToString(minutes) + " min"
    else
      var hours := minutes / 60;
      var mins := minutes % 60;
      if mins == 0 then NatToString(hours) + "h"
      else NatToString(hours) + "h " + NatToString(mins) + "min"
  }

  /** `formatStopwatchTime(seconds)`: hours, minutes and seconds, each at least two
      digits, separated by `:`. */
  function FormatStopwatchTime(seconds: nat): string
  {
    var hours := seconds / 3600;
    var minutes := (seconds % 3600) / 60;
    var secs := seconds % 60;
    PadStart2(NatToString(hours)) + ":" + PadStart2(NatToString(minutes)) + ":" + PadStart2(NatToString(secs))
  }

  // ----- Reading the displays back -----

  /** `r` is exactly ` min`. */
  predicate IsSpaceMin(r: string)
  {
    |r| == 4 && r[0] == ' ' && r[1] == 'm' && r[2] == 'i' && r[3] == 'n'
  }

  /** `r` is exactly `min`. */
  predicate IsMin(r: string)
  {
    |r| == 3 && r[0] == 'm' && r[1] == 'i' && r[2] == 'n'
  }

  /** Reads back what `FormatTime` writes: `<int> min`, `<h>h` or `<h>h <m>min`. A minus
      sign is only ever followed by the plain-minutes form. */
  function ReadTime(s: string): Option<int>
  {
    if s != [] && s[0] == '-' then
      var (d, r) := Span(s[1..]);
      if d != [] && IsSpaceMin(r) then Some(-(ParseNat(d) as int)) else None
    else
      var (d, r) := Span(s);
      ReadAfterHours(d, r)
  }

  /** The unsigned forms, once the leading digits `d` are split from the rest `r`. */
  function ReadAfterHours(d: string, r: string): Option<int>
  {
    if d == [] then None
    else if IsSpaceMin(r) then Some(ParseNat(d))
    else if |r| == 1 && r[0] == 'h' then Some(ParseNat(d) * 60)
    else if |r| >= 2 && r[0] == 'h' && r[1] == ' ' then
      var (m, r') := Span(r[2..]);
      if m != [] && IsMin(r') then Some(ParseNat(d) * 60 + ParseNat(m)) else None
    else None
  }

  /** Digits and then ` min`, with or without a minus sign in front. */
  lemma ReadPlainDigits(d: string)
    requires d != [] && AllDigits(d)
    ensures ReadTime(d + " min") == Some(ParseNat(d))
    ensures ReadTime("-" + d + " min") == Some(-(ParseNat(d) as int))
  {
    var s := d + " min";
    assert s[0] == d[0];
    SpanDigits(d, " min");
    var t := "-" + d + " min";
    assert t[0] == '-' && t[1..] == s;
  }

  /** Digits and then `h`. */
  lemma ReadHoursDigits(d: string)
    requires d != [] && AllDigits(d)
    ensures ReadTime(d + "h") == Some(ParseNat(d) * 60)
  {
    assert (d + "h")[0] == d[0];
    SpanDigits(d, "h");
  }

  /** Digits, `h `, digits and `min`. */
  lemma ReadHoursMinutesDigits(d: string, m: string)
    requires d != [] && AllDigits(d) && m != [] && AllDigits(m)
    ensures ReadTime(d + "h " + m + "min") == Some(ParseNat(d) * 60 + ParseNat(m))
  {
    var r := "h " + m + "min";
    HoursThenRest(d, m);
    SpanDigits(d, r);
    MinutesAfterHours(m);
    ReadUnsigned(d + r, d, r);
  }

  /** Text that does not start with a minus sign reads by its leading digits. */
  lemma ReadUnsigned(s: string, d: string, r: string)
    requires (s == [] || s[0] != '-') && Span(s) == (d, r)
    ensures ReadTime(s) == ReadAfterHours(d, r)
  {
  }

  /** `<d>h <m>min` is the hours followed by what comes after them. */
  lemma HoursThenRest(d: string, m: string)
    requires d != []
    ensures var r := "h " + m + "min"; d + "h " + m + "min" == d + r && (d + r)[0] == d[0]
  {
  }

  /** What follows the hours in `<h>h <m>min` splits into the minutes and `min`. */
  lemma MinutesAfterHours(m: string)
    requires m != [] && AllDigits(m)
    ensures var r := "h " + m + "min";
      |r| >= 2 && r[0] == 'h' && r[1] == ' ' && !IsSpaceMin(r) && Span(r[2..]) == (m, "min")
  {
    var r := "h " + m + "min";
    assert r[2..] == m + "min";
    SpanDigits(m, "min");
  }

  /** Reading back the minute display gives the minutes again, in every mode. */
  lemma FormatTimeRoundTrip(minutes: int, showHours: bool)
    ensures ReadTime(FormatTime(minutes, showHours)) == Some(minutes)
  {
    if !showHours || minutes < 60 {
      var n: nat := if minutes < 0 then -minutes else minutes;
      ReadPlainDigits(NatToString(n));
      ParseNatToString(n);
    } else if minutes % 60 == 0 {
      ReadHoursDigits(NatToString(minutes / 60));
      ParseNatToString(minutes / 60);
    } else {
      ReadHoursMinutesDigits(NatToString(minutes / 60), NatToString(minutes % 60));
      ParseNatToString(minutes / 60);
      ParseNatToString(minutes % 60);
    }
  }

  /** `s` ends in ` min`, the plain-minutes form. */
  predicate EndsInSpaceMin(s: string)
  {
    |s| >= 4 && IsSpaceMin(s[|s| - 4..])
  }

  /** The hour form appears exactly when hours are asked for and there is a full hour. */
  lemma FormatTimeShowsHours(minutes: int, showHours: bool)
    ensures EndsInSpaceMin(FormatTime(minutes, showHours)) <==> (!showHours || minutes < 60)
  {
    var r := FormatTime(minutes, showHours);
    if showHours && minutes >= 60 {
      if minutes % 60 == 0 {
        assert r[|r| - 1] == 'h';
        if |r| >= 4 {
          assert r[|r| - 4..][3] == r[|r| - 1];
        }
      } else {
        var m := NatToString(minutes % 60);
        assert r[|r| - 4] == m[|m| - 1];
        assert r[|r| - 4..][0] == r[|r| - 4];
      }
    } else {
      assert r[|r| - 4..] == " min";
    }
  }

  /** The value of two decimal digits. */
  function Two(a: char, b: char): nat
  {
    10 * DigitValue(a) + DigitValue(b)
  }

  /** A number below 100, padded: exactly two digits, which read back as the number. */
  lemma PaddedTwo(n: nat)
    requires n < 100
    ensures var p := PadStart2(NatToString(n));
      |p| == 2 && IsDigit(p[0]) && IsDigit(p[1]) && Two(p[0], p[1]) == n
  {
    if n >= 10 {
      assert NatToString(n) == NatToString(n / 10) + [DigitChar(n % 10)];
    }
  }

  /** The hours field, padded to at least two digits, reads back as the hours. */
  lemma PaddedHours(n: nat)
    ensures var p := PadStart2(NatToString(n));
      p != [] && AllDigits(p) && ParseNat(p) == n
  {
    var d := NatToString(n);
    ParseNatToString(n);
    if |d| == 1 {
      ParseNatLeadingZero(d);
    }
  }

  /** Reads back what `FormatStopwatchTime` writes: the hours, then `:`, two digits of
      minutes, `:` and two digits of seconds. */
  function ReadStopwatch(s: string): Option<nat>
  {
    var (h, r) := Span(s);
    if h != [] && |r| == 6 && r[0] == ':' && IsDigit(r[1]) && IsDigit(r[2])
       && r[3] == ':' && IsDigit(r[4]) && IsDigit(r[5])
    then Some(ParseNat(h) * 3600 + Two(r[1], r[2]) * 60 + Two(r[4], r[5]))
    else None
  }

  /** The three fields after one another, separated by `:`. */
  lemma ReadStopwatchFields(h: string, m: string, x: string)
    requires h != [] && AllDigits(h)
    requires |m| == 2 && IsDigit(m[0]) && IsDigit(m[1]) && |x| == 2 && IsDigit(x[0]) && IsDigit(x[1])
    ensures ReadStopwatch(h + ":" + m + ":" + x) == Some(ParseNat(h) * 3600 + Two(m[0], m[1]) * 60 + Two(x[0], x[1]))
  {
    var r := ":" + m + ":" + x;
    assert h + ":" + m + ":" + x == h + r;
    SpanDigits(h, r);
    assert |r| == 6 && r[1] == m[0] && r[2] == m[1] && r[3] == ':' && r[4] == x[0] && r[5] == x[1];
  }

  /** Hours, minutes and seconds put back together give the seconds. */
  lemma ClockParts(seconds: nat)
    ensures (seconds / 3600) * 3600 + ((seconds % 3600) / 60) * 60 + seconds % 60 == seconds
  {
    var h, q := seconds / 3600, seconds % 3600;
    var m, r := q / 60, q % 60;
    assert seconds == (h * 60 + m) * 60 + r;
    ModUnique(seconds, 60, h * 60 + m, r);
  }

  /** Reading back the stopwatch display gives the elapsed seconds again. */
  lemma StopwatchRoundTrip(seconds: nat)
    ensures ReadStopwatch(FormatStopwatchTime(seconds)) == Some(seconds)
  {
    var hours, minutes, secs := seconds / 3600, (seconds % 3600) / 60, seconds % 60;
    PaddedHours(hours);
    PaddedTwo(minutes);
    PaddedTwo(secs);
    ReadStopwatchFields(PadStart2(NatToString(hours)), PadStart2(NatToString(minutes)), PadStart2(NatToString(secs)));
    ClockParts(seconds);
  }
}
