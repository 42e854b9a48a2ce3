/** The `MM:SS` rendering of the seconds left (`formatTime` in components/count-down.tsx).
    Minutes are `floor(time / 60)`, seconds `time % 60`; each is written in decimal and
    left-padded with '0' to at least two characters, as `String(n).padStart(2, "0")` does.
    Only non-negative whole numbers of seconds are modelled. */
module Format {
  import opened Wrappers

  predicate IsDigit(c: char) {
    '0' <= c <= '9'
  }

  predicate AllDigits(s: string) {
    forall i :: 0 <= i < |s| ==> IsDigit(s[i])
  }

  function DigitChar(d: nat): (c: char)
    requires d < 10
    ensures IsDigit(c) && DigitValue(c) == d
  {
    (('0' as int) + d) as char
  }

  function DigitValue(c: char): nat
    requires IsDigit(c)
  {
    (c as int) - ('0' as int)
  }

  /** The decimal numeral of `n`, as `String(n)` writes a non-negative integer:
      no sign, no leading zero. */
  function Decimal(n: nat): (s: string)
    ensures 1 <= |s| && AllDigits(s)
    ensures |s| == 1 <==> n < 10
    ensures n >= 10 ==> s[0] != '0'
    decreases n
  {
    if n < 10 then [DigitChar(n)] else Decimal(n / 10) + [DigitChar(n % 10)]
  }

  /** The number a string of digits denotes (leading zeros allowed); the reader of a numeral. */
  function DecimalValue(s: string): nat
    requires AllDigits(s)
  {
    if s == [] then 0 else 10 * DecimalValue(s[..|s| - 1]) + DigitValue(s[|s| - 1])
  }

  /** `s.padStart(width, fill)`: `s` itself when already `width` long or longer,
      otherwise `s` preceded by enough copies of `fill` to reach `width`. */
  function PadStart(s: string, width: nat, fill: char): (r: string)
    ensures |r| == if |s| >= width then |s| else width
  {
    if |s| >= width then s else seq(width - |s|, _ => fill) + s
  }

  /** `String(n).padStart(2, "0")`: at least two digits, exactly two below 100. */
  function Pad2(n: nat): (r: string)
    ensures |r| >= 2 && AllDigits(r)
    ensures n < 100 ==> |r| == 2
  {
    PadStartContents(Decimal(n), 2, '0');
    PadStart(Decimal(n), 2, '0')
  }

  /** `formatTime(time)` for a whole, non-negative number of seconds: a colon before exactly
      two second digits, and five characters in all below 100 minutes. */
  function FormatTime(time: nat): (r: string)
    ensures |r| >= 5 && r[|r| - 3] == ':'
    ensures time < 6000 ==> |r| == 5
  {
    Pad2(time / 60) + ":" + Pad2(time % 60)
  }

  /** Reads back a rendered `MM:SS` (any number of minute digits, exactly two second digits). */
  function ParseTime(s: string): Option<nat> {
    if |s| >= 5 && s[|s| - 3] == ':' && AllDigits(s[..|s| - 3]) && AllDigits(s[|s| - 2..])
    then Some(60 * DecimalValue(s[..|s| - 3]) + DecimalValue(s[|s| - 2..]))
    else None
  }

  /** What `PadStart` keeps: a string already `width` long is returned as it is; otherwise
      the result ends with `s` and every character before it is `fill`. */
  lemma PadStartContents(s: string, width: nat, fill: char)
    ensures var r := PadStart(s, width, fill);
      (|s| >= width ==> r == s) &&
      r[|r| - |s|..] == s &&
      forall i :: 0 <= i < |r| - |s| ==> r[i] == fill
  {
  }

  /** Reading the numeral of `n` gives back `n`. */
  lemma {:induction false} DecimalRoundTrip(n: nat)
    ensures DecimalValue(Decimal(n)) == n
  {
    if n >= 10 {
      var s := Decimal(n);
      assert s[..|s| - 1] == Decimal(n / 10);
      DecimalRoundTrip(n / 10);
    }
  }

  /** A leading '0' does not change the value of a numeral. */
  lemma {:induction false} LeadingZero(s: string)
    requires AllDigits(s)
    ensures AllDigits(['0'] + s) && DecimalValue(['0'] + s) == DecimalValue(s)
  {
    var t := ['0'] + s;
    if s != [] {
      assert t[..|t| - 1] == ['0'] + s[..|s| - 1];
      LeadingZero(s[..|s| - 1]);
    }
  }

  /** The padded field is all digits, at least two of them, exactly two below 100,
      and still denotes `n`. */
  lemma Pad2Field(n: nat)
    ensures AllDigits(Pad2(n)) && |Pad2(n)| >= 2
    ensures n < 100 ==> |Pad2(n)| == 2
    ensures DecimalValue(Pad2(n)) == n
  {
    DecimalRoundTrip(n);
    var d := Decimal(n);
    if n < 10 {
      assert Pad2(n) == ['0'] + d;
      LeadingZero(d);
    } else if n < 100 {
      assert d[..|d| - 1] == Decimal(n / 10);
      assert |d| == 2;
    }
  }

  /** Splitting `m + ":" + s` with a two-digit `s` at its third-last character. */
  lemma JoinFields(m: string, s: string)
    requires |m| >= 2 && |s| == 2 && AllDigits(m) && AllDigits(s)
    ensures var r := m + ":" + s;
      |r| >= 5 && r[|r| - 3] == ':' && r[..|r| - 3] == m && r[|r| - 2..] == s
  {
  }

  /** The shape of the display: minutes, a colon, then exactly two second digits
      that denote a value in 00..59; the minutes field denotes `time / 60`. */
  lemma FormatTimeShape(time: nat)
    ensures var r := FormatTime(time);
      |r| >= 5 && r[|r| - 3] == ':' &&
      AllDigits(r[..|r| - 3]) && AllDigits(r[|r| - 2..]) &&
      DecimalValue(r[..|r| - 3]) == time / 60 &&
      DecimalValue(r[|r| - 2..]) == time % 60 < 60
  {
    var minutes, seconds := time / 60, time % 60;
    assert seconds < 60;
    Pad2Field(minutes);
    Pad2Field(seconds);
    JoinFields(Pad2(minutes), Pad2(seconds));
    assert FormatTime(time) == Pad2(minutes) + ":" + Pad2(seconds);
  }

  /** Reading the display back gives the number of seconds: the rendering loses nothing. */
  lemma FormatTimeRoundTrip(time: nat)
    ensures ParseTime(FormatTime(time)) == Some(time)
  {
    FormatTimeShape(time);
  }

  /** Distinct numbers of seconds are displayed differently. */
  lemma FormatTimeInjective(a: nat, b: nat)
    requires FormatTime(a) == FormatTime(b)
    ensures a == b
  {
    FormatTimeRoundTrip(a);
    FormatTimeRoundTrip(b);
  }

  /** A one-digit field gets exactly one leading '0'. */
  lemma PadOneDigit(n: nat)
    requires n < 10
    ensures Pad2(n) == ['0', DigitChar(n)]
  {
  }

  /** A two-digit field is written as it is. */
  lemma PadTwoDigits(n: nat)
    requires 10 <= n < 100
    ensures Pad2(n) == [DigitChar(n / 10), DigitChar(n % 10)]
  {
    assert Decimal(n / 10) == [DigitChar(n / 10)];
  }

  /** The renderings of 0, 59, 60 and 125 seconds. */
  lemma FormatTimeExamples()
    ensures FormatTime(0) == "00:00"
    ensures FormatTime(59) == "00:59"
    ensures FormatTime(60) == "01:00"
    ensures FormatTime(125) == "02:05"
  {
  }

  /** Below 100 minutes the display is exactly five characters: two minute digits, ':', and
      two second digits. */
  lemma FormatTwoFields(minutes: nat, seconds: nat)
    requires minutes < 100 && seconds < 60
    ensures FormatTime(minutes * 60 + seconds) ==
      [DigitChar(minutes / 10), DigitChar(minutes % 10), ':', DigitChar(seconds / 10), DigitChar(seconds % 10)]
  {
    var time := minutes * 60 + seconds;
    assert time / 60 == minutes && time % 60 == seconds;
    if minutes < 10 { PadOneDigit(minutes); } else { PadTwoDigits(minutes); }
    if seconds < 10 { PadOneDigit(seconds); } else { PadTwoDigits(seconds); }
  }
}
