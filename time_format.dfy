/**
 * Time-of-day arithmetic and the `H:MM:SS` rendering of the clock widget
 * (`timeInSeconds` and `formatTime` in src/App.jsx).
 *
 * The model formats only non-negative whole numbers of seconds, so the
 * fields are natural numbers and JavaScript's `Math.floor(x / y)` and `x % y`
 * coincide with Dafny's `/` and `%`.
 */
module TimeFormat {
  import opened Wrappers

  /** A number of seconds split into its hour, minute and second fields. */
  datatype Hms = Hms(hours: nat, minutes: nat, seconds: nat)

  /**
   * `formatTime`'s split: whole hours, then minutes and seconds of the
   * remaining part of the hour. Hours are not wrapped at 24.
   */
  function Split(t: nat): (r: Hms)
    ensures r.hours * 3600 + r.minutes * 60 + r.seconds == t
    ensures r.minutes < 60 && r.seconds < 60
    ensures r.seconds == t % 60
  {
    var rest := t % 3600;
    assert rest % 60 == t % 60 by { ModOfMod(t); }
    Hms(t / 3600, rest / 60, rest % 60)
  }

  /** Taking the remainder by an hour first does not change the remainder by a minute. */
  lemma ModOfMod(t: nat)
    ensures (t % 3600) % 60 == t % 60
  {
    var q := t / 3600;
    assert t == q * 3600 + t % 3600;
    assert q * 3600 == (q * 60) * 60;
  }

  /** The three fields are the only ones with in-range minutes and seconds that add up to `t`. */
  lemma SplitUnique(t: nat, h: nat, m: nat, s: nat)
    requires m < 60 && s < 60
    requires h * 3600 + m * 60 + s == t
    ensures Split(t) == Hms(h, m, s)
  {
    var r := Split(t);
    FieldsUnique(r.hours, r.minutes, r.seconds, h, m, s);
  }

  /** Hours, minutes and seconds with minutes and seconds below 60 are determined by their total. */
  lemma FieldsUnique(h1: int, m1: int, s1: int, h2: int, m2: int, s2: int)
    requires 0 <= m1 < 60 && 0 <= s1 < 60 && 0 <= m2 < 60 && 0 <= s2 < 60
    requires h1 * 3600 + m1 * 60 + s1 == h2 * 3600 + m2 * 60 + s2
    ensures h1 == h2 && m1 == m2 && s1 == s2
  {
    assert -3600 < (h1 - h2) * 3600 < 3600;
    assert h1 == h2;
    assert -60 < (m1 - m2) * 60 < 60;
  }

  /**
   * Seconds since midnight of a time of day read from a `Date`
   * (`getHours`, `getMinutes` and `getSeconds` stay within a day).
   */
  function TimeInSeconds(hours: nat, minutes: nat, seconds: nat): (r: nat)
    requires hours < 24 && minutes < 60 && seconds < 60
    ensures r < 86400
    ensures Split(r) == Hms(hours, minutes, seconds)
  {
    var r := hours * 60 * 60 + minutes * 60 + seconds;
    SplitUnique(r, hours, minutes, seconds);
    r
  }

  predicate IsDigit(c: char) {
    '0' <= c <= '9'
  }

  predicate AllDigits(s: string) {
    forall i :: 0 <= i < |s| ==> IsDigit(s[i])
  }

  function DigitValue(c: char): nat
    requires IsDigit(c)
  {
    c as int - '0' as int
  }

  function DigitChar(d: nat): (c: char)
    requires d < 10
    ensures IsDigit(c) && DigitValue(c) == d
  {
    ('0' as int + d) as char
  }

  /** The number a string of decimal digits denotes (leading zeros allowed). */
  function DigitsValue(s: string): nat
    requires AllDigits(s)
  {
    if s == [] then 0 else DigitsValue(s[..|s| - 1]) * 10 + DigitValue(s[|s| - 1])
  }

  /**
   * The text JavaScript produces when a non-negative integer is concatenated
   * to a string: its decimal digits, with no leading zero.
   */
  function Decimal(n: nat): (r: string)
    ensures 1 <= |r| && AllDigits(r)
    ensures DigitsValue(r) == n
    ensures r[0] == '0' <==> n == 0
    ensures |r| == 1 <==> n < 10
  {
    if n < 10 then [DigitChar(n)]
    else
      var prefix := Decimal(n / 10);
      var r := prefix + [DigitChar(n % 10)];
      assert r[..|r| - 1] == prefix;
      r
  }

  /** A leading zero does not change the number a digit string denotes. */
  lemma {:induction false} LeadingZero(s: string)
    requires AllDigits(s)
    ensures AllDigits("0" + s) && DigitsValue("0" + s) == DigitsValue(s)
  {
    var z := "0" + s;
    if s != [] {
      LeadingZero(s[..|s| - 1]);
      assert z[..|z| - 1] == "0" + s[..|s| - 1];
    }
  }

  /** Two decimal digits, the intended rendering of a clock field below 100. */
  function TwoDigits(n: nat): string
    requires n < 100
  {
    [DigitChar(n / 10), DigitChar(n % 10)]
  }

  /**
   * One field of `formatTime`: a single `"0"` is put in front of a value
   * below 10 and nothing in front of any other value.
   */
  function Field(n: nat): (r: string)
    ensures 2 <= |r| && AllDigits(r) && DigitsValue(r) == n
    ensures r[0] == '0' <==> n < 10
    ensures n < 100 ==> r == TwoDigits(n)
  {
    if n < 10 then
      LeadingZero(Decimal(n));
      "0" + Decimal(n)
    else
      Decimal(n)
  }

  /**
   * Reads the fields of an `H:MM:SS` text: everything before the last six
   * characters is the hour, then two-digit minutes and seconds, each below 60.
   */
  function ReadFields(s: string): Option<Hms> {
    if |s| >= 8 && s[|s| - 6] == ':' && s[|s| - 3] == ':'
    then ReadParts(s[..|s| - 6], s[|s| - 5..|s| - 3], s[|s| - 2..])
    else None
  }

  function ReadParts(hh: string, mm: string, ss: string): Option<Hms> {
    if AllDigits(hh) && AllDigits(mm) && AllDigits(ss) && DigitsValue(mm) < 60 && DigitsValue(ss) < 60
    then Some(Hms(DigitsValue(hh), DigitsValue(mm), DigitsValue(ss)))
    else None
  }

  /** Reads an `H:MM:SS` text back into seconds. */
  function ParseClock(s: string): Option<nat> {
    match ReadFields(s)
    case Some(f) => Some(f.hours * 3600 + f.minutes * 60 + f.seconds)
    case None => None
  }

  /**
   * `formatTime`: the three fields of `Split(t)` joined by colons. The hour
   * part is exactly the hour field's text, the hour, minute and second parts
   * denote exactly the fields of `Split(t)`, so the whole text is fixed and
   * reading it back gives the number of seconds.
   */
  function FormatTime(t: nat): (r: string)
    ensures |r| >= 8
    ensures r[..|r| - 6] == Field(Split(t).hours)
    ensures ReadFields(r) == Some(Split(t))
    ensures ParseClock(r) == Some(t)
  {
    var f := Split(t);
    var hh, mm, ss := Field(f.hours), Field(f.minutes), Field(f.seconds);
    ReadJoined(hh, mm, ss);
    hh + ":" + mm + ":" + ss
  }

  /** Hour text, then two-character minute and second texts, joined by colons, are read back part by part. */
  lemma ReadJoined(hh: string, mm: string, ss: string)
    requires |hh| >= 2 && |mm| == 2 && |ss| == 2
    ensures (hh + ":" + mm + ":" + ss)[..|hh|] == hh
    ensures ReadFields(hh + ":" + mm + ":" + ss) == ReadParts(hh, mm, ss)
  {
    var r := hh + ":" + mm + ":" + ss;
    assert r[..|r| - 6] == hh;
    assert r[|r| - 5..|r| - 3] == mm;
    assert r[|r| - 2..] == ss;
  }

  /** Different numbers of seconds are rendered differently. */
  lemma FormatTimeInjective(t: nat, u: nat)
    requires FormatTime(t) == FormatTime(u)
    ensures t == u
  {
  }

  /**
   * Below 100 hours every field has exactly two digits: the text is eight
   * characters, `DD:DD:DD`, with the colons at positions 2 and 5.
   */
  lemma FormatTimeShape(t: nat)
    requires t < 360000
    ensures var r := FormatTime(t);
      |r| == 8 && r[2] == ':' && r[5] == ':'
      && forall i :: 0 <= i < 8 && i != 2 && i != 5 ==> IsDigit(r[i])
  {
    var f := Split(t);
    assert f.hours < 100;
    var hh, mm, ss := TwoDigits(f.hours), TwoDigits(f.minutes), TwoDigits(f.seconds);
    assert FormatTime(t) == hh + ":" + mm + ":" + ss;
  }

  /**
   * What the clock shows for a time of day: the two-digit hour, minute and
   * second, in that order.
   */
  lemma FormatTimeOfDay(hours: nat, minutes: nat, seconds: nat)
    requires hours < 24 && minutes < 60 && seconds < 60
    ensures FormatTime(TimeInSeconds(hours, minutes, seconds))
         == TwoDigits(hours) + ":" + TwoDigits(minutes) + ":" + TwoDigits(seconds)
  {
  }
}
