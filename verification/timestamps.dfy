/** Re-rendering of the compact measurement timestamps into the
    `YYYY-MM-DD HH:MM:SS` form stored in the tables. Both renderings slice
    the text at fixed offsets, exactly like the Python slices they model:
    nothing is validated, short text yields short pieces. */
module Timestamps {
  import opened PyStr

  /** Hourly form, `YYYYMMDDHH` to `YYYY-MM-DD HH:00:00`. */
  function HourlyStamp(s: string): string {
    Slice(s, 0, 4) + "-" + Slice(s, 4, 6) + "-" + Slice(s, 6, 8) + " " + Slice(s, 8, 10) + ":00:00"
  }

  /** The hourly rendering is 19 characters for a 10-character stamp (the
      pieces shrink with shorter text). */
  lemma HourlyLength(s: string)
    ensures |HourlyStamp(s)| == Min(|s|, 10) + 9
  {
    SliceMeaning(s, 0, 4);
    SliceMeaning(s, 4, 6);
    SliceMeaning(s, 6, 8);
    SliceMeaning(s, 8, 10);
  }

  /** A full hourly stamp is rendered with the year, month, day and hour
      digits between fixed separators and zero minutes and seconds. */
  lemma HourlyShape(s: string)
    requires |s| >= 10
    ensures
      var r := HourlyStamp(s);
      && r[..4] == s[..4] && r[4] == '-'
      && r[5..7] == s[4..6] && r[7] == '-'
      && r[8..10] == s[6..8] && r[10] == ' '
      && r[11..13] == s[8..10] && r[13..] == ":00:00"
  {
    var r := s[..4] + "-" + s[4..6] + "-" + s[6..8] + " " + s[8..10] + ":00:00";
    assert HourlyStamp(s) == r;
  }

  /** Solar form, `YYYYMMDDHH:MM` to `YYYY-MM-DD HH:MM:00`; the character
      at offset 10 (the colon) is skipped. */
  function SolarStamp(s: string): string {
    Slice(s, 0, 4) + "-" + Slice(s, 4, 6) + "-" + Slice(s, 6, 8) + " " + Slice(s, 8, 10) + ":"
      + Slice(s, 11, 13) + ":00"
  }

  /** The solar rendering is 19 characters for a 13-character stamp (the
      pieces shrink with shorter text); the character at offset 10 does
      not appear. */
  lemma SolarLength(s: string)
    ensures |SolarStamp(s)| == Min(|s|, 10) + (if |s| <= 11 then 0 else Min(|s|, 13) - 11) + 7
  {
    SliceMeaning(s, 0, 4);
    SliceMeaning(s, 4, 6);
    SliceMeaning(s, 6, 8);
    SliceMeaning(s, 8, 10);
    SliceMeaning(s, 11, 13);
  }

  /** A full solar stamp is rendered with the date, the hour and the
      minutes between fixed separators. */
  lemma SolarShape(s: string)
    requires |s| >= 13
    ensures
      var r := SolarStamp(s);
      && r[..4] == s[..4] && r[4] == '-'
      && r[5..7] == s[4..6] && r[7] == '-'
      && r[8..10] == s[6..8] && r[10] == ' '
      && r[11..13] == s[8..10] && r[13] == ':'
      && r[14..16] == s[11..13] && r[16..] == ":00"
  {
    var r := s[..4] + "-" + s[4..6] + "-" + s[6..8] + " " + s[8..10] + ":" + s[11..13] + ":00";
    assert SolarStamp(s) == r;
  }

  /** The digits a rendered hourly timestamp carries, in order. */
  function HourlyDigits(r: string): string
    requires |r| >= 13
  {
    r[..4] + r[5..7] + r[8..10] + r[11..13]
  }

  /** The digits a rendered solar timestamp carries, in order. */
  function SolarDigits(r: string): string
    requires |r| >= 16
  {
    r[..4] + r[5..7] + r[8..10] + r[11..13] + r[14..16]
  }

  /** A 10-character hourly timestamp is copied in order: reading the
      digits back out of the rendering gives the input. */
  lemma HourlyRoundTrip(s: string)
    requires |s| == 10
    ensures HourlyDigits(HourlyStamp(s)) == s
  {
    assert s == s[..4] + s[4..6] + s[6..8] + s[8..10];
  }

  /** Distinct 10-character timestamps render differently. */
  lemma HourlyInjective(s: string, t: string)
    requires |s| == 10 && |t| == 10
    requires HourlyStamp(s) == HourlyStamp(t)
    ensures s == t
  {
    HourlyRoundTrip(s);
    HourlyRoundTrip(t);
  }

  /** Characters past offset 10 never reach an hourly rendering. */
  lemma HourlyIgnoresTail(s: string)
    requires |s| >= 10
    ensures HourlyStamp(s) == HourlyStamp(s[..10])
  {
  }

  /** A 13-character solar timestamp keeps every character except the
      colon at offset 10, in order. */
  lemma SolarRoundTrip(s: string)
    requires |s| == 13
    ensures SolarDigits(SolarStamp(s)) == s[..10] + s[11..]
  {
    assert s[..10] == s[..4] + s[4..6] + s[6..8] + s[8..10];
  }

  /** The character at offset 10 of a solar timestamp has no influence. */
  lemma SolarIgnoresSeparator(s: string, t: string)
    requires |s| == |t|
    requires forall k :: 0 <= k < |s| && k != 10 ==> s[k] == t[k]
    ensures SolarStamp(s) == SolarStamp(t)
  {
    assert Slice(s, 0, 4) == Slice(t, 0, 4);
    assert Slice(s, 4, 6) == Slice(t, 4, 6);
    assert Slice(s, 6, 8) == Slice(t, 6, 8);
    assert Slice(s, 8, 10) == Slice(t, 8, 10);
    assert Slice(s, 11, 13) == Slice(t, 11, 13);
  }

  /** On the full hour, the solar rendering agrees with the hourly one. */
  lemma SolarOnTheHour(s: string)
    requires |s| == 13 && s[11..13] == "00"
    ensures SolarStamp(s) == HourlyStamp(s[..10])
  {
    var h := s[..10];
    assert SolarStamp(s) == s[..4] + "-" + s[4..6] + "-" + s[6..8] + " " + s[8..10] + ":" + "00" + ":00";
    assert HourlyStamp(h) == h[..4] + "-" + h[4..6] + "-" + h[6..8] + " " + h[8..10] + ":00:00";
  }
}
