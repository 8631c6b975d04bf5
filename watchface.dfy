/**
  The watchface's state and its two event handlers: the minute tick, which
  recomputes both clock slots, and the inbound configuration message, which
  replaces the minute offset and recomputes at once.
*/
module Watchface {
  import opened Wrappers
  import opened CArith
  import opened CStr
  import opened Decimal
  import opened ZoneClock

  const NUM_TIMEZONES: nat := 2
  /** The size of the `tzNames` buffer that holds slot 0's label. */
  const TZ_NAMES_SIZE: nat := 8
  /** The one dictionary key the configuration channel carries. */
  const AKEY_TZOFFSET: nat := 0

  /** The target of a slot's `name` pointer: the shared `tzNames` buffer or a string literal. */
  datatype NameRef = TzNamesBuffer | Literal(text: string)

  /**
    One `timezone_t`: its name pointer, its two-character sign glyph buffer,
    its broken-down time and its layer handle (0 for none); `dirty` is the
    pending-redraw flag that `layer_mark_dirty` sets on that layer.
  */
  datatype Zone = Zone(name: NameRef, plusOrMinus: seq<char>, now: Tm, layer: int, dirty: bool)

  const ZeroTm: Tm := Tm(0, 0, 0, 0, 0, 0, 0, 0, 0)

  /** The text `snprintf` is asked to format into `tzNames`: "GMT+" and the decimal of `-tzOffset / 60`. */
  function LabelText(offset: int): (t: string)
    ensures |t| >= 5 && t[..4] == "GMT+"
    ensures (t[4] == '-') <==> Quot(-offset, 60) < 0
  {
    "GMT+" + DecimalString(Quot(-offset, 60))
  }

  /** Slot 0's label: the formatted text cut to the seven characters the 8-byte buffer holds. */
  function Label(offset: int): (s: string)
    ensures 5 <= |s| <= TZ_NAMES_SIZE - 1 && |s| <= |LabelText(offset)|
    ensures s == LabelText(offset)[..|s|] && s[..4] == "GMT+"
    ensures |LabelText(offset)| < TZ_NAMES_SIZE ==> s == LabelText(offset)
    ensures |LabelText(offset)| >= TZ_NAMES_SIZE ==> |s| == TZ_NAMES_SIZE - 1
  {
    Truncate(LabelText(offset), TZ_NAMES_SIZE)
  }

  /** For an offset of at most a day either way the label is never cut, and prints the negated hour part of the offset. */
  lemma LabelNotCut(offset: int)
    requires -1440 <= offset <= 1440
    ensures Label(offset) == "GMT+" + DecimalString(Quot(-offset, 60))
    ensures ParseDecimal(Label(offset)[4..]) == Some(Quot(-offset, 60))
    ensures Quot(-offset, 60) == -Quot(offset, 60)
  {
    QuotNegate(offset, 60);
    var h := Quot(-offset, 60);
    assert -24 <= h <= 24;
    DigitsLength(Abs(h), 2);
    DecimalRoundTrip(h);
    assert Label(offset)[4..] == DecimalString(h);
  }

  /** The label reads the hour offset with its sign reversed: 300 minutes is "GMT+-5", -120 is "GMT+2". */
  lemma LabelExamples()
    ensures Label(300) == "GMT+-5" && Label(-120) == "GMT+2" && Label(0) == "GMT+0"
    ensures Label(-330) == "GMT+5"
  {
  }

  /** An offset too large for the buffer keeps only its first seven characters. */
  lemma LabelCut()
    ensures Label(600000) == "GMT+-10"
  {
    assert Quot(-600000, 60) == -10000;
    assert LabelText(600000) == "GMT+-10000";
  }

  /**
    The two slots after `handle_tick`: slot 0 holds the tick's own sample,
    slot 1 the GMT sample shifted by the offset with its sign glyph
    terminated, and both are marked for redraw.
  */
  function TickZones(zs: seq<Zone>, tick: Tm, gmt: Tm, offset: int): (r: seq<Zone>)
    requires |zs| == NUM_TIMEZONES
    ensures |r| == NUM_TIMEZONES
    ensures forall k :: 0 <= k < NUM_TIMEZONES ==>
      r[k].dirty && r[k].name == zs[k].name && r[k].layer == zs[k].layer
    ensures r[0] == zs[0].(now := tick, dirty := true)
  {
    var s := Shift(gmt, Quot(offset, 60), Rem(offset, 60));
    [zs[0].(now := tick, dirty := true),
     zs[1].(now := s.now, plusOrMinus := [s.glyph, NUL], dirty := true)]
  }

  /**
    What one tick shows in slot 1 for a valid GMT sample and an offset of at
    most a day: an hour in the day, a minute in [0, 60] that is 60 exactly when
    the sample's minute plus the offset remainder is 60, the clock moved by the
    offset up to the day the glyph reports, and every other field of the
    sample as it was.
  */
  lemma TickSlotOne(zs: seq<Zone>, tick: Tm, gmt: Tm, offset: int)
    requires |zs| == NUM_TIMEZONES && ValidTm(gmt) && -1440 <= offset <= 1440
    ensures var z := TickZones(zs, tick, gmt, offset)[1];
      && 0 <= z.now.hour <= 23 && 0 <= z.now.min <= 60
      && (z.now.min == 60 <==> gmt.min + Rem(offset, 60) == 60)
      && z.now == gmt.(hour := z.now.hour, min := z.now.min)
      && |z.plusOrMinus| == 2 && z.plusOrMinus[1] == NUL && z.plusOrMinus[0] in {'+', '-', ' '}
      && ClockMinutes(z.now) == ClockMinutes(gmt) + offset + DayCorrection(z.plusOrMinus[0])
  {
  }

  /** With a zero offset slot 1 shows the GMT sample as it is, with the neutral glyph. */
  lemma TickZeroOffset(zs: seq<Zone>, tick: Tm, gmt: Tm)
    requires |zs| == NUM_TIMEZONES && ValidTm(gmt)
    ensures TickZones(zs, tick, gmt, 0)[1].now == gmt
    ensures TickZones(zs, tick, gmt, 0)[1].plusOrMinus == [' ', NUL]
  {
  }

  /** A second tick with the same samples and offset changes nothing more. */
  lemma TickIdempotent(zs: seq<Zone>, names: seq<char>, tick: Tm, gmt: Tm, offset: int)
    requires |zs| == NUM_TIMEZONES && |names| == TZ_NAMES_SIZE
    ensures TickZones(TickZones(zs, tick, gmt, offset), tick, gmt, offset) == TickZones(zs, tick, gmt, offset)
    ensures Formatted(Formatted(names, LabelText(offset)), LabelText(offset)) == Formatted(names, LabelText(offset))
  {
    FormattedIdempotent(names, LabelText(offset));
  }

  /**
    The watchface's globals: the `timezones[]` array, the `tzNames` buffer
    and the stored offset with its split into hours and remainder.
  */
  class Face {
    const timezones: array<Zone>
    const tzNames: array<char>
    var tzOffset: int
    var tzOffsetHours: int
    var tzOffsetMinutes: int

    /** The two slots with their fixed names, and the offset split by C's `/` and `%` into two `int` values. */
    ghost predicate Valid()
      reads this, timezones
    {
      && timezones.Length == NUM_TIMEZONES && tzNames.Length == TZ_NAMES_SIZE
      && timezones[0].name == TzNamesBuffer && timezones[1].name == Literal("Zulu")
      && |timezones[0].plusOrMinus| == 2 && |timezones[1].plusOrMinus| == 2
      && INT_MIN <= tzOffset <= INT_MAX
      && tzOffsetHours == Quot(tzOffset, 60) && tzOffsetMinutes == Rem(tzOffset, 60)
      && INT_MIN <= tzOffsetHours <= INT_MAX && INT_MIN <= tzOffsetMinutes <= INT_MAX
    }

    /** The string a slot's `name` pointer reads. */
    ghost function SlotName(k: nat): string
      reads this, timezones, tzNames
      requires Valid() && k < NUM_TIMEZONES
    {
      match timezones[k].name
      case TzNamesBuffer => CString(tzNames[..])
      case Literal(text) => text
    }

    /** The static initialisers: zero offset, an empty label, slot 0's glyph " ", no layers yet. */
    constructor ()
      ensures Valid() && fresh(timezones) && fresh(tzNames)
      ensures tzOffset == 0 && tzOffsetHours == 0 && tzOffsetMinutes == 0
      ensures timezones[..] == [Zone(TzNamesBuffer, [' ', NUL], ZeroTm, 0, false),
                                Zone(Literal("Zulu"), [NUL, NUL], ZeroTm, 0, false)]
      ensures forall k :: 0 <= k < TZ_NAMES_SIZE ==> tzNames[k] == NUL
    {
      tzNames := new char[TZ_NAMES_SIZE](_ => NUL);
      timezones := new Zone[NUM_TIMEZONES][Zone(TzNamesBuffer, [' ', NUL], ZeroTm, 0, false),
                                           Zone(Literal("Zulu"), [NUL, NUL], ZeroTm, 0, false)];
      tzOffset, tzOffsetHours, tzOffsetMinutes := 0, 0, 0;
    }

    /**
      `handle_tick(tick_time, units_changed)`, with `gmt` standing for
      `*gmtime(&now)`. The negation `-tzOffset` in the label overflows for
      INT_MIN, which is excluded.
    */
    method HandleTick(tickTime: Tm, gmt: Tm)
      requires Valid() && tzOffset != INT_MIN
      modifies timezones, tzNames
      ensures Valid()
      ensures timezones[..] == TickZones(old(timezones[..]), tickTime, gmt, tzOffset)
      ensures tzNames[..] == Formatted(old(tzNames[..]), LabelText(tzOffset))
      ensures SlotName(0) == Label(tzOffset) && SlotName(1) == "Zulu"
    {
      var now := gmt;
      var glyph := ' ';
      now := now.(min := now.min + tzOffsetMinutes);
      if now.min > 60 {
        now := now.(hour := now.hour + 1, min := now.min - 60);
      } else if now.min < 0 {
        now := now.(hour := now.hour - 1, min := now.min + 60);
      }
      now := now.(hour := now.hour + tzOffsetHours);
      if now.hour >= 24 {
        now := now.(hour := now.hour - 24);
        glyph := '+';
      }
      if now.hour < 0 {
        now := now.(hour := now.hour + 24);
        glyph := '-';
      }
      assert Shifted(now, glyph) == Shift(gmt, tzOffsetHours, tzOffsetMinutes);
      timezones[1] := timezones[1].(now := now, plusOrMinus := [glyph, NUL]);
      timezones[0] := timezones[0].(now := tickTime);
      Snprintf(tzNames, LabelText(tzOffset));

      ghost var stamped := timezones[..];
      for k := 0 to NUM_TIMEZONES
        modifies timezones
        invariant forall j :: 0 <= j < NUM_TIMEZONES ==>
          timezones[j] == if j < k then stamped[j].(dirty := true) else stamped[j]
      {
        timezones[k] := timezones[k].(dirty := true);
      }
      assert timezones[..] == [stamped[0].(dirty := true), stamped[1].(dirty := true)];
      LabelHasNoNul(tzOffset);
    }

    /**
      `in_received_handler`: `message` maps each key of the received
      dictionary to its 32-bit value, so `dict_find(iter, AKEY_TZOFFSET)`
      finds a tuple exactly when `AKEY_TZOFFSET in message`. `localNow`
      stands for `*localtime(&now)` and `gmt` for the sample the tick takes.
      A message without the key changes nothing.
    */
    method InReceived(message: map<nat, Int32>, localNow: Tm, gmt: Tm)
      requires Valid()
      requires AKEY_TZOFFSET in message ==> message[AKEY_TZOFFSET] != INT_MIN
      modifies this, timezones, tzNames
      ensures Valid()
      ensures AKEY_TZOFFSET !in message ==>
        tzOffset == old(tzOffset) && tzOffsetHours == old(tzOffsetHours) &&
        tzOffsetMinutes == old(tzOffsetMinutes) &&
        timezones[..] == old(timezones[..]) && tzNames[..] == old(tzNames[..])
      ensures AKEY_TZOFFSET in message ==>
        tzOffset == message[AKEY_TZOFFSET] &&
        tzOffsetHours * 60 + tzOffsetMinutes == tzOffset &&
        SlotName(0) == Label(tzOffset) &&
        timezones[..] == TickZones(old(timezones[..]), localNow, gmt, tzOffset) &&
        tzNames[..] == Formatted(old(tzNames[..]), LabelText(tzOffset))
    {
      if AKEY_TZOFFSET in message {
        tzOffset := message[AKEY_TZOFFSET];
        tzOffsetHours := Quot(tzOffset, 60);
        tzOffsetMinutes := Rem(tzOffset, 60);
        QuotRem(tzOffset, 60);
        QuotRemInRange(tzOffset, 60);
        HandleTick(localNow, gmt);
      }
    }

    /** `containerOf(me)`: the first slot whose layer is `me`, or slot 0 when none is. */
    method ContainerOf(me: int) returns (k: nat)
      requires Valid()
      ensures k < NUM_TIMEZONES
      ensures (exists j :: 0 <= j < NUM_TIMEZONES && timezones[j].layer == me) ==>
        timezones[k].layer == me && forall j :: 0 <= j < k ==> timezones[j].layer != me
      ensures (forall j :: 0 <= j < NUM_TIMEZONES ==> timezones[j].layer != me) ==> k == 0
    {
      for i := 0 to NUM_TIMEZONES
        invariant forall j :: 0 <= j < i ==> timezones[j].layer != me
      {
        if timezones[i].layer == me {
          return i;
        }
      }
      return 0;
    }
  }

  /** The label text holds no NUL, so the buffer reads back as the whole cut text. */
  lemma LabelHasNoNul(offset: int)
    ensures NUL !in LabelText(offset)
  {
  }
}
