/** Rendering of a non-negative duration as an `HH:MM:SS` string, the
    `timedelta` branch of `time_converter` in backend/database.py. */
module TimeFormat {
  import opened Wrappers

  /** A Python `timedelta` in its normalised form: whole days, seconds within
      the day and microseconds within the second.  Negative durations are not
      part of this model. */
  datatype Duration = Duration(days: nat, seconds: nat, microseconds: nat)

  predicate Normalized(d: Duration) {
    d.seconds < 86400 && d.microseconds < 1000000
  }

  /** The exact length of `d`, in microseconds. */
  function TotalMicroseconds(d: Duration): nat {
    (d.days * 86400 + d.seconds) * 1000000 + d.microseconds
  }

  /** `int(o.total_seconds())`: the duration in whole seconds, the fraction of
      a second dropped. */
  function TruncatedSeconds(d: Duration): (s: nat)
    requires Normalized(d)
    ensures s * 1000000 <= TotalMicroseconds(d) < (s + 1) * 1000000
  {
    d.days * 86400 + d.seconds
  }

  /** The three fields printed by `time_converter`. */
  datatype Clock = Clock(hours: nat, minutes: nat, seconds: nat)

  /** Hours, minutes and seconds of `s` seconds, by integer division and
      remainder. */
  function Split(s: nat): (c: Clock)
    ensures c.minutes < 60 && c.seconds < 60
    ensures c.hours * 3600 + c.minutes * 60 + c.seconds == s
  {
    Clock(s / 3600, (s % 3600) / 60, s % 60)
  }

  /** The fields are determined by the two bounds and the recombination, so
      `Split` is the only clock that describes `s`. */
  lemma SplitUnique(s: nat, c: Clock)
    requires c.minutes < 60 && c.seconds < 60
    requires c.hours * 3600 + c.minutes * 60 + c.seconds == s
    ensures c == Split(s)
  {
    var m := c.minutes * 60 + c.seconds;
    assert 0 <= m < 3600;
    assert s == c.hours * 3600 + m;
    assert s / 3600 == c.hours && s % 3600 == m;
    assert m / 60 == c.minutes && m % 60 == c.seconds;
    assert s % 60 == c.seconds by {
      assert s == (c.hours * 60 + c.minutes) * 60 + c.seconds;
    }
  }

  // Decimal digits

  function DigitChar(d: nat): (ch: char)
    requires d < 10
    ensures '0' <= ch <= '9'
  {
    "0123456789"[d]
  }

  predicate IsDigit(ch: char) {
    '0' <= ch <= '9'
  }

  predicate AllDigits(s: string) {
    forall i :: 0 <= i < |s| ==> IsDigit(s[i])
  }

  function DigitValue(ch: char): nat
    requires IsDigit(ch)
  {
    ch as int - '0' as int
  }

  lemma DigitRoundTrip(d: nat)
    requires d < 10
    ensures DigitValue(DigitChar(d)) == d
  {
  }

  /** The value of a string of decimal digits, most significant first. */
  function DigitsValue(s: string): nat
    requires AllDigits(s)
  {
    if s == [] then 0 else DigitsValue(s[..|s| - 1]) * 10 + DigitValue(s[|s| - 1])
  }

  /** `str(n)` for a non-negative integer: its decimal digits without leading
      zeros. */
  function Decimal(n: nat): (s: string)
    ensures 1 <= |s| && AllDigits(s)
    ensures |s| == 1 <==> n < 10
    ensures n >= 10 ==> s[0] != '0'
  {
    if n < 10 then [DigitChar(n)] else Decimal(n / 10) + [DigitChar(n % 10)]
  }

  lemma {:induction false} DecimalValue(n: nat)
    ensures DigitsValue(Decimal(n)) == n
  {
    DigitRoundTrip(n % 10);
    if n >= 10 {
      DecimalValue(n / 10);
      var s := Decimal(n);
      assert s[..|s| - 1] == Decimal(n / 10);
    }
  }

  lemma {:induction false} DecimalLength(n: nat)
    ensures |Decimal(n)| == 2 <==> 10 <= n < 100
  {
    if n >= 10 {
      DecimalLength(n / 10);
    }
  }

  /** The format spec `02` on a non-negative integer: zero-padded to at least
      two characters. */
  function Pad2(n: nat): (s: string)
    ensures AllDigits(s) && DigitsValue(s) == n
    ensures |s| >= 2
    ensures |s| == 2 <==> n < 100
    ensures n >= 10 ==> s[0] != '0'
  {
    DecimalValue(n);
    DecimalLength(n);
    if n < 10 then DigitRoundTrip(n); ['0', DigitChar(n)] else Decimal(n)
  }

  /** `time_converter` applied to a `timedelta`: `f"{h:02}:{m:02}:{s:02}"`. */
  function Render(d: Duration): (r: string)
    requires Normalized(d)
    ensures |r| >= 8 && r[|r| - 3] == ':' && r[|r| - 6] == ':'
  {
    var c := Split(TruncatedSeconds(d));
    Pad2(c.hours) + ":" + Pad2(c.minutes) + ":" + Pad2(c.seconds)
  }

  /** Reads back a string `H...H:MM:SS`: one or more hour digits, then two
      minute and two second digits, minutes and seconds below 60. */
  function Parse(s: string): Option<nat> {
    if |s| < 7 || s[|s| - 3] != ':' || s[|s| - 6] != ':' then None
    else
      var h, m, sec := s[..|s| - 6], s[|s| - 5..|s| - 3], s[|s| - 2..];
      if !AllDigits(h) || !AllDigits(m) || !AllDigits(sec) then None
      else if DigitsValue(m) >= 60 || DigitsValue(sec) >= 60 then None
      else Some(DigitsValue(h) * 3600 + DigitsValue(m) * 60 + DigitsValue(sec))
  }

  /** The shape of the output: colons at the two fixed positions from the
      end, minutes and seconds exactly two digits, hours at least two digits
      and exactly two when below 100. */
  lemma RenderShape(d: Duration)
    requires Normalized(d)
    ensures var r, c := Render(d), Split(TruncatedSeconds(d));
      && |r| >= 8
      && r[|r| - 3] == ':' && r[|r| - 6] == ':'
      && r[..|r| - 6] == Pad2(c.hours)
      && r[|r| - 5..|r| - 3] == Pad2(c.minutes)
      && r[|r| - 2..] == Pad2(c.seconds)
      && (|r| == 8 <==> c.hours < 100)
  {
    var c := Split(TruncatedSeconds(d));
    var h, m, s := Pad2(c.hours), Pad2(c.minutes), Pad2(c.seconds);
    var r := Render(d);
    assert r == h + ":" + m + ":" + s;
    assert |m| == 2 && |s| == 2;
    assert r[..|r| - 6] == h;
    assert r[|r| - 5..|r| - 3] == m;
    assert r[|r| - 2..] == s;
  }

  /** Reading the rendered string back gives the truncated number of
      seconds. */
  lemma RoundTrip(d: Duration)
    requires Normalized(d)
    ensures Parse(Render(d)) == Some(TruncatedSeconds(d))
  {
    RenderShape(d);
  }
}
