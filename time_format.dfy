/**
 * The `[hour]:[minute]:[second]` format of the `time` crate, used both to
 * print a schedule's time for the scheduler (`format_tweet_at`,
 * src/model.rs) and to parse the `tweet_at` column
 * (api/src/gq/list_active_tasks.rs). Each component is exactly two
 * zero-padded decimal digits.
 */
module TimeFormat {
  import opened Wrappers
  import opened Model

  predicate IsDigit(c: char) { '0' <= c <= '9' }

  function DigitChar(d: nat): (c: char)
    requires d < 10
    ensures IsDigit(c) && c as int - '0' as int == d
  {
    ('0' as int + d) as char
  }

  function DigitValue(c: char): (d: nat)
    requires IsDigit(c)
    ensures d < 10 && DigitChar(d) == c
  {
    (c as int - '0' as int)
  }

  function Pad2(n: nat): (s: string)
    requires n < 100
    ensures |s| == 2 && IsDigit(s[0]) && IsDigit(s[1])
    ensures 10 * DigitValue(s[0]) + DigitValue(s[1]) == n
  {
    var tens, ones := n / 10, n % 10;
    assert 10 * tens + ones == n;
    [DigitChar(tens), DigitChar(ones)]
  }

  /** `format_tweet_at`: `HH:MM:SS`. */
  function FormatTweetAt(t: Time): (s: string)
    ensures |s| == 8 && s[2] == ':' && s[5] == ':'
  {
    Pad2(t.hour) + ":" + Pad2(t.minute) + ":" + Pad2(t.second)
  }

  predicate TwoDigits(s: string, i: nat)
  {
    i + 1 < |s| && IsDigit(s[i]) && IsDigit(s[i + 1])
  }

  function TwoDigitValue(s: string, i: nat): nat
    requires TwoDigits(s, i)
  {
    10 * DigitValue(s[i]) + DigitValue(s[i + 1])
  }

  /**
   * `time::Time::parse(s, "[hour]:[minute]:[second]")`: `None` is the
   * parse error that the callers `unwrap`.
   */
  function ParseTime(s: string): (r: Option<Time>)
    ensures r.Some? ==> |s| == 8
  {
    if |s| == 8 && TwoDigits(s, 0) && s[2] == ':' && TwoDigits(s, 3) && s[5] == ':' && TwoDigits(s, 6)
    then
      var h, m, sec := TwoDigitValue(s, 0), TwoDigitValue(s, 3), TwoDigitValue(s, 6);
      if h < 24 && m < 60 && sec < 60 then Some(TimeOfDay(h, m, sec)) else None
    else None
  }

  /** Parsing the printed form of a time gives the time back. */
  lemma ParseFormatted(t: Time)
    ensures ParseTime(FormatTweetAt(t)) == Some(t)
  {
    var s := FormatTweetAt(t);
    assert s[0..2] == Pad2(t.hour) && s[3..5] == Pad2(t.minute) && s[6..8] == Pad2(t.second);
    assert TwoDigitValue(s, 0) == t.hour;
    assert TwoDigitValue(s, 3) == t.minute;
    assert TwoDigitValue(s, 6) == t.second;
  }

  /** Every string that parses is the printed form of what it parses to. */
  lemma FormatParsed(s: string)
    requires ParseTime(s).Some?
    ensures FormatTweetAt(ParseTime(s).value) == s
  {
    var t := ParseTime(s).value;
    var f := FormatTweetAt(t);
    assert f[0..2] == Pad2(t.hour) && f[3..5] == Pad2(t.minute) && f[6..8] == Pad2(t.second);
    forall i | 0 <= i < 8 ensures f[i] == s[i] {
      if i == 0 || i == 1 { PadDigits(t.hour, s, 0); }
      else if i == 3 || i == 4 { PadDigits(t.minute, s, 3); }
      else if i == 6 || i == 7 { PadDigits(t.second, s, 6); }
    }
  }

  lemma PadDigits(n: nat, s: string, i: nat)
    requires n < 100 && TwoDigits(s, i) && TwoDigitValue(s, i) == n
    ensures Pad2(n)[0] == s[i] && Pad2(n)[1] == s[i + 1]
  {
    var a, b := DigitValue(s[i]), DigitValue(s[i + 1]);
    assert n / 10 == a && n % 10 == b;
  }
}
