/**
  The clock arithmetic of the second time zone: a broken-down time sample
  shifted by a minute offset that has been split into whole hours and a
  remainder, with one carry between minute and hour and one wrap of the hour
  into a day, and the day/night test that picks a face's colours.
*/
module ZoneClock {
  import opened CArith

  /** C's `struct tm`, as `gmtime` and `localtime` fill it in. */
  datatype Tm = Tm(sec: int, min: int, hour: int, mday: int, mon: int,
                   year: int, wday: int, yday: int, isdst: int)

  /** The ranges the C library guarantees for a broken-down time (a leap second may read 60). */
  predicate ValidTm(t: Tm)
  {
    0 <= t.sec <= 60 && 0 <= t.min <= 59 && 0 <= t.hour <= 23 &&
    1 <= t.mday <= 31 && 0 <= t.mon <= 11 && 0 <= t.wday <= 6 && 0 <= t.yday <= 365
  }

  /** Minutes since midnight, the quantity an offset moves. */
  function ClockMinutes(t: Tm): int { t.hour * 60 + t.min }

  /** A shifted time together with the glyph that says whether the day changed. */
  datatype Shifted = Shifted(now: Tm, glyph: char)

  /**
    Adds the remainder minutes with a single carry into the hour. The test
    is `> 60` as written in the source, so a sum of exactly 60 is kept as
    minute 60.
  */
  function CarryMinute(t: Tm, minutes: int): (c: Tm)
    ensures c == t.(hour := c.hour, min := c.min)
    ensures ClockMinutes(c) == ClockMinutes(t) + minutes
    ensures c.hour == t.hour + 1 <==> t.min + minutes > 60
    ensures c.hour == t.hour - 1 <==> t.min + minutes < 0
    ensures c.hour == t.hour <==> 0 <= t.min + minutes <= 60
    ensures 0 <= t.min <= 59 && -60 < minutes < 60 ==> 0 <= c.min <= 60
    ensures 0 <= t.min <= 59 && -60 < minutes < 60 ==> (c.min == 60 <==> t.min + minutes == 60)
  {
    var m := t.min + minutes;
    if m > 60 then t.(hour := t.hour + 1, min := m - 60)
    else if m < 0 then t.(hour := t.hour - 1, min := m + 60)
    else t.(min := m)
  }

  /**
    Wraps the hour once into a day: 24 is taken off an hour of 24 or more
    (glyph '+'), then 24 is added to an hour below zero (glyph '-'); an hour
    already in the day keeps the glyph ' '.
  */
  function WrapHour(t: Tm): (s: Shifted)
    ensures s.now == t.(hour := s.now.hour)
    ensures s.glyph == '+' <==> t.hour >= 24
    ensures s.glyph == '-' <==> t.hour < 0
    ensures s.glyph == ' ' <==> 0 <= t.hour < 24
    ensures s.now.hour == t.hour + (if s.glyph == '+' then -24 else if s.glyph == '-' then 24 else 0)
    ensures -24 <= t.hour <= 47 ==> 0 <= s.now.hour <= 23
  {
    var afterHigh := if t.hour >= 24 then Shifted(t.(hour := t.hour - 24), '+') else Shifted(t, ' ');
    if afterHigh.now.hour < 0 then Shifted(afterHigh.now.(hour := afterHigh.now.hour + 24), '-')
    else afterHigh
  }

  /** The second zone's time: the sample moved by `hours` and `minutes`, carried and wrapped. */
  function Shift(base: Tm, hours: int, minutes: int): (r: Shifted)
    ensures r.now == base.(hour := r.now.hour, min := r.now.min)
    ensures r.glyph in {'+', '-', ' '}
    ensures ClockMinutes(r.now) == ClockMinutes(base) + hours * 60 + minutes + DayCorrection(r.glyph)
  {
    var carried := CarryMinute(base, minutes);
    WrapHour(carried.(hour := carried.hour + hours))
  }

  /** The day change the glyph reports, in minutes: -1440 for '+', 1440 for '-', else 0. */
  function DayCorrection(glyph: char): int
  {
    if glyph == '+' then -1440 else if glyph == '-' then 1440 else 0
  }

  /**
    What shifting a sample by a minute offset does, with the offset split
    by C's truncating `/` and `%` as the message handler splits it.
    Only the hour and the minute change; the clock moves by exactly the
    offset, up to the one day the glyph reports; and for a valid sample and
    an offset of at most a day either way, the hour stays in the day and the
    minute in [0, 60], reaching 60 exactly when the sample's minute plus the
    remainder is 60.
  */
  lemma ShiftByOffset(base: Tm, offset: int)
    ensures var s := Shift(base, Quot(offset, 60), Rem(offset, 60));
      && s.now == base.(hour := s.now.hour, min := s.now.min)
      && ClockMinutes(s.now) == ClockMinutes(base) + offset + DayCorrection(s.glyph)
      && (ClockMinutes(s.now) - ClockMinutes(base) - offset) % 1440 == 0
      && (ValidTm(base) && -1440 <= offset <= 1440 ==>
            0 <= s.now.hour <= 23 && 0 <= s.now.min <= 60 &&
            (s.now.min == 60 <==> base.min + Rem(offset, 60) == 60))
  {
  }

  /** A zero offset leaves the sample as it is, with the neutral glyph. */
  lemma ShiftByZero(base: Tm)
    requires ValidTm(base)
    ensures Shift(base, Quot(0, 60), Rem(0, 60)) == Shifted(base, ' ')
  {
  }

  /** With no remainder, only the hour moves: the minute is the sample's own. */
  lemma ShiftWholeHours(base: Tm, hours: int)
    requires ValidTm(base) && -24 <= hours <= 24
    ensures var s := Shift(base, hours, 0);
      s.now.min == base.min && 0 <= s.now.hour <= 23 &&
      (s.now.hour - base.hour - hours) % 24 == 0
  {
  }

  /** 23:45 moved by 90 minutes is 01:15 of the next day; 00:10 moved by -40 is 23:30 of the day before. */
  lemma ShiftScenarios()
    ensures var s := Shift(Tm(0, 45, 23, 1, 0, 124, 1, 0, 0), Quot(90, 60), Rem(90, 60));
      s.now.hour == 1 && s.now.min == 15 && s.glyph == '+'
    ensures var s := Shift(Tm(0, 10, 0, 1, 0, 124, 1, 0, 0), Quot(-40, 60), Rem(-40, 60));
      s.now.hour == 23 && s.now.min == 30 && s.glyph == '-'
  {
  }

  /** The hours a face is drawn in inverted colours: 19 to 23 and 0 to 5. */
  const NightHours: set<int> := {19, 20, 21, 22, 23, 0, 1, 2, 3, 4, 5}

  /** The day/night test of the layer update (`tm_hour > 18 || tm_hour < 6`). */
  function IsNight(hour: int): (night: bool)
    ensures 0 <= hour <= 23 ==> (night <==> hour in NightHours)
  {
    hour > 18 || hour < 6
  }

  /**
    The carry as evidently intended: a sum of 60 or more carries, so the
    minute always lands in [0, 59].
  */
  function CarryMinuteFixed(t: Tm, minutes: int): (c: Tm)
    ensures c == t.(hour := c.hour, min := c.min)
    ensures ClockMinutes(c) == ClockMinutes(t) + minutes
    ensures 0 <= t.min <= 59 && -60 < minutes < 60 ==> 0 <= c.min <= 59
  {
    var m := t.min + minutes;
    if m >= 60 then t.(hour := t.hour + 1, min := m - 60)
    else if m < 0 then t.(hour := t.hour - 1, min := m + 60)
    else t.(min := m)
  }

  /** `Shift` with the intended carry. */
  function ShiftFixed(base: Tm, hours: int, minutes: int): (r: Shifted)
    ensures r.now == base.(hour := r.now.hour, min := r.now.min)
    ensures r.glyph in {'+', '-', ' '}
    ensures ClockMinutes(r.now) == ClockMinutes(base) + hours * 60 + minutes + DayCorrection(r.glyph)
  {
    var carried := CarryMinuteFixed(base, minutes);
    WrapHour(carried.(hour := carried.hour + hours))
  }

  /** With the intended carry, every offset of at most a day gives a displayable hour and minute. */
  lemma ShiftFixedInRange(base: Tm, offset: int)
    requires ValidTm(base) && -1440 <= offset <= 1440
    ensures var s := ShiftFixed(base, Quot(offset, 60), Rem(offset, 60));
      0 <= s.now.hour <= 23 && 0 <= s.now.min <= 59 &&
      ClockMinutes(s.now) == ClockMinutes(base) + offset + DayCorrection(s.glyph)
  {
  }

  /**
    The source's carry lets minute 60 through: 12:30 sampled with a 30-minute
    offset shows as 12:60 rather than 13:00.
  */
  lemma MinuteSixtyShown()
    ensures var base := Tm(0, 30, 12, 1, 0, 124, 1, 0, 0);
      Shift(base, Quot(30, 60), Rem(30, 60)).now.min == 60 &&
      ShiftFixed(base, Quot(30, 60), Rem(30, 60)).now == base.(hour := 13, min := 0)
  {
  }
}
