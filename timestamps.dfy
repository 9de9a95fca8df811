/**
 * The run-start timestamps the time-to-accuracy legend prints, and the text
 * `datetime.isoformat(' ', 'seconds')` makes of them.
 */
module Timestamps {
  import opened Wrappers
  import opened Decimal

  type Year = y: nat | 1 <= y <= 9999 witness 1
  type Month = m: nat | 1 <= m <= 12 witness 1
  type Day = d: nat | 1 <= d <= 31 witness 1
  type Hour = h: nat | h < 24
  type Minute = m: nat | m < 60
  type Second = s: nat | s < 60
  type Microsecond = u: nat | u < 1000000

  /** A naive `datetime` (no time zone), field by field. */
  datatype Timestamp = Timestamp(year: Year, month: Month, day: Day,
                                 hour: Hour, minute: Minute, second: Second,
                                 microsecond: Microsecond)

  /** `t.isoformat(' ', 'seconds')`: "YYYY-MM-DD HH:MM:SS"; the microseconds are dropped. */
  function IsoFormat(t: Timestamp): (s: string)
    ensures |s| == 19 && AllDigits(s[0..4]) && AllDigits(s[5..7]) && AllDigits(s[8..10])
    ensures AllDigits(s[11..13]) && AllDigits(s[14..16]) && AllDigits(s[17..19])
    ensures s[4] == '-' && s[7] == '-' && s[10] == ' ' && s[13] == ':' && s[16] == ':'
  {
    assert Pow10(2) == 100 && Pow10(4) == 10000;
    var s := ZeroPadded(t.year, 4) + "-" + ZeroPadded(t.month, 2) + "-" + ZeroPadded(t.day, 2) + " "
             + ZeroPadded(t.hour, 2) + ":" + ZeroPadded(t.minute, 2) + ":" + ZeroPadded(t.second, 2);
    assert s[0..4] == ZeroPadded(t.year, 4);
    assert s[5..7] == ZeroPadded(t.month, 2);
    assert s[8..10] == ZeroPadded(t.day, 2);
    assert s[11..13] == ZeroPadded(t.hour, 2);
    assert s[14..16] == ZeroPadded(t.minute, 2);
    assert s[17..19] == ZeroPadded(t.second, 2);
    s
  }

  /**
   * Reads back the text IsoFormat writes; None for any other layout. It checks
   * each field's range only, not calendar validity: "2021-02-31 00:00:00" is
   * accepted, which `datetime.fromisoformat` rejects.
   */
  function ParseIsoFormat(s: string): (r: Option<Timestamp>)
    ensures r.Some? ==> |s| == 19
  {
    if |s| == 19 && AllDigits(s[0..4]) && AllDigits(s[5..7]) && AllDigits(s[8..10])
       && AllDigits(s[11..13]) && AllDigits(s[14..16]) && AllDigits(s[17..19])
       && s[4] == '-' && s[7] == '-' && s[10] == ' ' && s[13] == ':' && s[16] == ':'
    then
      var year, month, day := ParseDigits(s[0..4]), ParseDigits(s[5..7]), ParseDigits(s[8..10]);
      var hour, minute, second := ParseDigits(s[11..13]), ParseDigits(s[14..16]), ParseDigits(s[17..19]);
      if 1 <= year <= 9999 && 1 <= month <= 12 && 1 <= day <= 31 && hour < 24 && minute < 60 && second < 60
      then Some(Timestamp(year, month, day, hour, minute, second, 0))
      else None
    else None
  }

  /** Reading the text back gives the timestamp truncated to whole seconds. */
  lemma IsoFormatRoundTrip(t: Timestamp)
    ensures ParseIsoFormat(IsoFormat(t)) == Some(t.(microsecond := 0))
  {
    var s := IsoFormat(t);
    assert Pow10(2) == 100 && Pow10(4) == 10000;
    assert s[0..4] == ZeroPadded(t.year, 4);
    assert s[5..7] == ZeroPadded(t.month, 2);
    assert s[8..10] == ZeroPadded(t.day, 2);
    assert s[11..13] == ZeroPadded(t.hour, 2);
    assert s[14..16] == ZeroPadded(t.minute, 2);
    assert s[17..19] == ZeroPadded(t.second, 2);
    ZeroPaddedRoundTrip(t.year, 4);
    ZeroPaddedRoundTrip(t.month, 2);
    ZeroPaddedRoundTrip(t.day, 2);
    ZeroPaddedRoundTrip(t.hour, 2);
    ZeroPaddedRoundTrip(t.minute, 2);
    ZeroPaddedRoundTrip(t.second, 2);
  }

  /** Two timestamps print alike exactly when they agree up to the second. */
  lemma IsoFormatDistinguishesSeconds(t: Timestamp, u: Timestamp)
    ensures IsoFormat(t) == IsoFormat(u) <==> t.(microsecond := 0) == u.(microsecond := 0)
  {
    IsoFormatRoundTrip(t);
    IsoFormatRoundTrip(u);
    if t.(microsecond := 0) == u.(microsecond := 0) {
      assert t.year == u.year && t.month == u.month && t.day == u.day;
      assert t.hour == u.hour && t.minute == u.minute && t.second == u.second;
    }
  }
}
