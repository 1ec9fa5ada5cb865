/**
 * SRT time codes: `format_time` (both variants) and `parse_time_to_seconds`
 * (`appp.py`). Times are whole microseconds; `format_time` goes through a
 * Python `timedelta`, whose `seconds` field drops whole days.
 */
module SrtTime {
  import opened Text

  const MicrosPerMilli: int := 1000
  const MicrosPerSecond: int := 1_000_000
  const SecondsPerDay: int := 86_400
  const MicrosPerDay: int := 86_400_000_000

  /**
   * The normalised fields of `timedelta(microseconds=t)`: `days` may be any
   * integer, `seconds` lies in [0, 86400) and `micros` in [0, 10^6). They
   * are uniquely determined by these bounds and the total they add up to.
   */
  datatype Delta = Delta(days: int, seconds: int, micros: int)

  function ToDelta(t: int): (d: Delta)
    ensures 0 <= d.seconds < SecondsPerDay && 0 <= d.micros < MicrosPerSecond
    ensures d.days * MicrosPerDay + d.seconds * MicrosPerSecond + d.micros == t
  {
    var inDay := t % MicrosPerDay;
    Delta(t / MicrosPerDay, inDay / MicrosPerSecond, inDay % MicrosPerSecond)
  }

  /** Twelve characters `HH:MM:SS,mmm`, every field made of ASCII digits. */
  predicate IsTimeCode(s: string) {
    && |s| == 12
    && s[2] == ':' && s[5] == ':' && s[8] == ','
    && AllDigits(s[0..2]) && AllDigits(s[3..5]) && AllDigits(s[6..8]) && AllDigits(s[9..12])
  }

  function Hours(s: string): nat requires IsTimeCode(s) { DecimalValue(s[0..2]) }
  function Minutes(s: string): nat requires IsTimeCode(s) { DecimalValue(s[3..5]) }
  function Seconds(s: string): nat requires IsTimeCode(s) { DecimalValue(s[6..8]) }
  function Millis(s: string): nat requires IsTimeCode(s) { DecimalValue(s[9..12]) }

  /** The fields of a time code are below 100 and the milliseconds below 1000. */
  lemma FieldBounds(s: string)
    requires IsTimeCode(s)
    ensures Hours(s) < 100 && Minutes(s) < 100 && Seconds(s) < 100 && Millis(s) < 1000
  {
    DecimalValueBound(s[0..2]);
    DecimalValueBound(s[3..5]);
    DecimalValueBound(s[6..8]);
    DecimalValueBound(s[9..12]);
    assert Pow10(2) == 100 && Pow10(3) == 1000;
  }

  /** A time code `format_time` can produce: hours below 24, minutes and seconds below 60. */
  predicate IsCanonical(s: string) {
    IsTimeCode(s) && Hours(s) < 24 && Minutes(s) < 60 && Seconds(s) < 60
  }

  /** `t` cut down to the time of day, truncated to whole milliseconds. */
  function TruncateToMillis(t: int): (r: int)
    ensures 0 <= r < MicrosPerDay && r % MicrosPerMilli == 0
    ensures 0 <= t < MicrosPerDay ==> t - MicrosPerMilli < r <= t
  {
    (t % MicrosPerDay) / MicrosPerMilli * MicrosPerMilli
  }

  /**
   * `format_time`: `HH:MM:SS,mmm` of the time of day of `t` with whole
   * days dropped, milliseconds truncated, every field zero-padded.
   * `FormatTimeFields` states the shape and the value of each field.
   */
  function FormatTime(t: int): (r: string)
    ensures |r| == 12
  {
    var d := ToDelta(t);
    Pad(d.seconds / 3600, 2) + ":" + Pad(d.seconds % 3600 / 60, 2) + ":" + Pad(d.seconds % 60, 2)
    + "," + Pad(d.micros / 1000, 3)
  }

  /**
   * What `format_time` writes: a time code with hours below 24, whose fields
   * are the hours, minutes and seconds of the day and the truncated milliseconds.
   */
  lemma FormatTimeFields(t: int)
    ensures var r := FormatTime(t);
            && IsCanonical(r)
            && Hours(r) == ToDelta(t).seconds / 3600
            && Minutes(r) == ToDelta(t).seconds % 3600 / 60
            && Seconds(r) == ToDelta(t).seconds % 60
            && Millis(r) == ToDelta(t).micros / MicrosPerMilli
  {
    var d := ToDelta(t);
    var r := FormatTime(t);
    assert r[0..2] == Pad(d.seconds / 3600, 2) && r[3..5] == Pad(d.seconds % 3600 / 60, 2);
    assert r[6..8] == Pad(d.seconds % 60, 2) && r[9..12] == Pad(d.micros / 1000, 3);
  }

  /**
   * `parse_time_to_seconds` on a time code: after `,` becomes `.` and the
   * string is split at `:`, the parts are `HH`, `MM` and `SS.mmm`, read as
   * hours, minutes and (fractional) seconds.
   */
  function ParseTime(s: string): (t: int)
    requires IsTimeCode(s)
    ensures t >= 0 && t % MicrosPerMilli == 0
    ensures IsCanonical(s) ==> t < MicrosPerDay
  {
    FieldBounds(s);
    Hours(s) * 3600 * MicrosPerSecond + Minutes(s) * 60 * MicrosPerSecond
    + Seconds(s) * MicrosPerSecond + Millis(s) * MicrosPerMilli
  }

  /** Hours, minutes and seconds of a second count add back up to it. */
  lemma ClockSum(secs: int)
    requires 0 <= secs
    ensures secs / 3600 * 3600 + secs % 3600 / 60 * 60 + secs % 60 == secs
  {
    var q, rem := secs / 3600, secs % 3600;
    var m, s := rem / 60, rem % 60;
    assert secs == 60 * (60 * q + m) + s;
    assert secs / 60 == 60 * q + m;
  }

  /** Truncating whole seconds plus microseconds to milliseconds only touches the microseconds. */
  lemma MilliTrunc(secs: int, us: int)
    requires 0 <= us < MicrosPerSecond
    ensures (secs * MicrosPerSecond + us) / MicrosPerMilli * MicrosPerMilli
            == secs * MicrosPerSecond + us / MicrosPerMilli * MicrosPerMilli
  {
    var x := secs * MicrosPerSecond + us;
    assert x == (secs * 1000 + us / 1000) * 1000 + us % 1000;
  }

  /**
   * Parsing inverts formatting at millisecond granularity: the parsed
   * value is the formatted time with whole days dropped and the sub-millisecond
   * part truncated.
   */
  lemma ParseFormat(t: int)
    ensures ParseTime(FormatTime(t)) == TruncateToMillis(t)
  {
    FormatTimeFields(t);
    var d := ToDelta(t);
    var r := FormatTime(t);
    var secs, us := d.seconds, d.micros;
    assert secs * MicrosPerSecond + us == t % MicrosPerDay;
    ClockSum(secs);
    MilliTrunc(secs, us);
    assert ParseTime(r) == (Hours(r) * 3600 + Minutes(r) * 60 + Seconds(r)) * MicrosPerSecond + Millis(r) * MicrosPerMilli;
  }

  /** For a time within the first day, parse(format(t)) is `t` truncated to milliseconds. */
  lemma ParseFormatWithinDay(t: int)
    requires 0 <= t < MicrosPerDay
    ensures ParseTime(FormatTime(t)) == t - t % MicrosPerMilli
  {
    assert TruncateToMillis(t) == t - t % MicrosPerMilli by {
      assert t % MicrosPerDay == t;
      assert t == t / MicrosPerMilli * MicrosPerMilli + t % MicrosPerMilli;
    }
    ParseFormat(t);
  }

  /** The timedelta fields of a time of day given as its parts. */
  lemma DeltaOfParts(h: nat, m: nat, sec: nat, ms: nat)
    requires h < 24 && m < 60 && sec < 60 && ms < 1000
    ensures var t := h * 3600 * MicrosPerSecond + m * 60 * MicrosPerSecond + sec * MicrosPerSecond + ms * MicrosPerMilli;
            ToDelta(t) == Delta(0, h * 3600 + m * 60 + sec, ms * 1000)
  {
    var t := h * 3600 * MicrosPerSecond + m * 60 * MicrosPerSecond + sec * MicrosPerSecond + ms * MicrosPerMilli;
    var secs := h * 3600 + m * 60 + sec;
    assert t == secs * MicrosPerSecond + ms * 1000;
    assert t % MicrosPerDay == t;
    assert t / MicrosPerDay == 0;
    assert t / MicrosPerSecond == secs;
    assert t % MicrosPerSecond == ms * 1000;
  }

  /** Hours, minutes and seconds are recovered from the seconds of the day. */
  lemma ClockOfParts(h: nat, m: nat, sec: nat)
    requires h < 24 && m < 60 && sec < 60
    ensures var secs := h * 3600 + m * 60 + sec;
            secs / 3600 == h && secs % 3600 / 60 == m && secs % 60 == sec
  {
    var secs := h * 3600 + m * 60 + sec;
    assert secs % 3600 == m * 60 + sec;
    assert secs % 60 == sec;
  }

  /** A time code is determined by its four field values. */
  lemma SameFieldsSameCode(r: string, s: string)
    requires IsTimeCode(r) && IsTimeCode(s)
    requires Hours(r) == Hours(s) && Minutes(r) == Minutes(s)
    requires Seconds(r) == Seconds(s) && Millis(r) == Millis(s)
    ensures r == s
  {
    PadDecimalValue(s[0..2]);
    PadDecimalValue(s[3..5]);
    PadDecimalValue(s[6..8]);
    PadDecimalValue(s[9..12]);
    PadDecimalValue(r[0..2]);
    PadDecimalValue(r[3..5]);
    PadDecimalValue(r[6..8]);
    PadDecimalValue(r[9..12]);
    assert r == r[0..2] + [':'] + r[3..5] + [':'] + r[6..8] + [','] + r[9..12];
    assert s == s[0..2] + [':'] + s[3..5] + [':'] + s[6..8] + [','] + s[9..12];
  }

  /** Formatting inverts parsing on every time code `format_time` can produce. */
  lemma FormatParse(s: string)
    requires IsCanonical(s)
    ensures FormatTime(ParseTime(s)) == s
  {
    var h, m, sec, ms := Hours(s), Minutes(s), Seconds(s), Millis(s);
    var t := ParseTime(s);
    var r := FormatTime(t);
    assert ToDelta(t) == Delta(0, h * 3600 + m * 60 + sec, ms * 1000) by {
      FieldBounds(s);
      DeltaOfParts(h, m, sec, ms);
    }
    assert Hours(r) == h && Minutes(r) == m && Seconds(r) == sec && Millis(r) == ms by {
      FieldBounds(s);
      ClockOfParts(h, m, sec);
      FormatTimeFields(t);
    }
    assert IsTimeCode(r) by {
      FormatTimeFields(t);
    }
    SameFieldsSameCode(r, s);
  }
}
