/** The millisecond form of the week-rollover repair, and its agreement with the date form. */
module Rollover {
  import opened Civil
  import opened Nmea

  /** 2019-04-07 00:00 in milliseconds since 1970. */
  const LAST_ROLLOVER_MS: int := 1_554_595_200_000

  /** 1024 weeks in milliseconds. */
  const GPS_EPOCH_MS: int := 619_315_200_000

  /** t is a timestamp that the repair leaves alone. */
  predicate Current(t: int) {
    t <= 0 || t >= 1_554_595_200_000
  }

  /** The repair loop of loc_eng_report_position. */
  method FixTimestamp(t: int) returns (r: int)
    ensures r == Fixed(t)
  {
    r := t;
    while r > 0 && r < LAST_ROLLOVER_MS
      invariant Fixed(r) == Fixed(t)
      decreases LAST_ROLLOVER_MS - r
    {
      FixedShift(r);
      r := r + GPS_EPOCH_MS;
    }
  }

  /** The instant that is t up to whole 1024-week periods and lies in the period from 2019-04-07. */
  function Fixed(t: int): int {
    if Current(t) then t else 1_554_595_200_000 + (t - 1_554_595_200_000) % 619_315_200_000
  }

  lemma FixedShift(t: int)
    requires !Current(t)
    ensures Fixed(t + 619_315_200_000) == Fixed(t)
  {
    var x := t - 1_554_595_200_000;
    var q, m := x / 619_315_200_000, x % 619_315_200_000;
    assert x == 619_315_200_000 * q + m;
    Remainder(x + 619_315_200_000, q + 1, m);
    if t + 619_315_200_000 >= 1_554_595_200_000 {
      Remainder(x + 619_315_200_000, 0, x + 619_315_200_000);
    }
  }

  lemma Remainder(x: int, q: int, m: int)
    requires x == 619_315_200_000 * q + m && 0 <= m < 619_315_200_000
    ensures x % 619_315_200_000 == m
  {
  }

  /** An instant after 1970 and before 2019-04-07 is moved on by a whole number of periods into the only period that is
      current, and any other is left alone; repairing again changes nothing. */
  lemma FixedWindow(t: int, r: int)
    ensures r == Fixed(t) <==>
      if 0 < t < 1_554_595_200_000 then
        1_554_595_200_000 <= r < 1_554_595_200_000 + 619_315_200_000 && (r - t) % 619_315_200_000 == 0
      else r == t
    ensures Fixed(t) >= t && Fixed(Fixed(t)) == Fixed(t)
  {
    if !Current(t) { StaleWindow(t, r); }
  }

  lemma StaleWindow(t: int, r: int)
    requires !Current(t)
    ensures r == Fixed(t) <==>
      1_554_595_200_000 <= r < 1_554_595_200_000 + 619_315_200_000 && (r - t) % 619_315_200_000 == 0
    ensures Fixed(t) > t && Fixed(Fixed(t)) == Fixed(t)
  {
    var x := t - 1_554_595_200_000;
    var q, m := x / 619_315_200_000, x % 619_315_200_000;
    assert x == 619_315_200_000 * q + m;
    if r == Fixed(t) {
      Remainder(r - t, -q, 0);
    } else if 1_554_595_200_000 <= r < 1_554_595_200_000 + 619_315_200_000 && (r - t) % 619_315_200_000 == 0 {
      var p := (r - t) / 619_315_200_000;
      assert r - t == 619_315_200_000 * p;
      Remainder(x, -p, r - 1_554_595_200_000);
    }
  }

  function DayOf(ms: int): int {
    ms / 86_400_000
  }

  /** The day number that the date repair puts in place of day. */
  function FixedDay(day: int): int {
    if day < LAST_ROLLOVER then day + 1024 * 7 else day
  }

  /** The two repairs agree on the calendar day exactly from 1999-08-22 on. */
  lemma RepairsAgree(t: int)
    ensures DayOf(Fixed(t)) == FixedDay(DayOf(t)) <==> t >= 10825 * 86_400_000
  {
    var x := t - 1_554_595_200_000;
    if !Current(t) {
      if t >= 10825 * 86_400_000 {
        Remainder(x, -1, x + 619_315_200_000);
        assert Fixed(t) == t + 7168 * 86_400_000;
      } else {
        FixedWindow(t, Fixed(t));
        var p := (Fixed(t) - t) / 619_315_200_000;
        assert Fixed(t) == t + 7168 * 86_400_000 * p;
        assert p >= 2;
      }
    }
  }

  /** On a date of an NMEA sentence, that day is the one the sentence is given. */
  lemma DatesAgree(d: Date, t: int)
    requires Readable(d) && DaysFromCivil(d) < LAST_ROLLOVER && DayOf(t) == DaysFromCivil(d)
    ensures CivilFromDays(DayOf(Fixed(t))) == Moved(d) <==> t >= 10825 * 86_400_000
  {
    hide CivilFromDays, DaysFromCivil, Fixed;
    RepairsAgree(t);
    DaysRoundTrip(DayOf(Fixed(t)));
    DaysRoundTrip(DaysFromCivil(d) + 7168);
  }
}
