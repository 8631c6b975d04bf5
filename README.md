# ZuluTime watchface core, modelled in Dafny

ZuluTime is a Pebble watchface that shows two clocks at once. Slot 0 shows
the local time, labelled `GMT+<n>`. Slot 1, labelled "Zulu", shows a time
derived from the GMT sample and a minute offset sent from the phone. Once a
minute the tick handler builds slot 1's time. It adds the offset remainder
to the minute with one carry into the hour. It then adds the offset hours
and wraps the hour once into a day, setting a `'+'`, `'-'` or `' '` glyph. It
copies the local sample into slot 0, formats slot 0's label into an 8-byte
buffer, and marks both slots for redraw. A configuration message carrying
the offset key replaces the stored offset and splits it with C's truncating
`/` and `%`. It then runs the tick at once; a message without the key does
nothing. The file also holds a day/night test on the hour, `itoa` (decimal
digits written backwards into a 14-character static buffer) and
`containerOf`, which finds the slot that owns a layer.

Modules, one file each:

- `wrappers.dfy`, `Wrappers`: `Option`, the result of the reference decimal parser, which may reject its input.
- `carith.dfy`, `CArith`: the 32-bit `int` range, and C's `/` and `%`, which truncate toward zero. These are `Quot` and `Rem`; Dafny's own operators are Euclidean.
- `cstr.dfy`, `CStr`: what a `char *` reads as a string (`CString`), and what `snprintf` leaves in a fixed buffer (`Formatted`, `Snprintf`).
- `decimal.dfy`, `Decimal`: the canonical decimal form (`DecimalString`) with a reference parser, and `itoa` as the class `DigitBuffer` around its static buffer.
- `zoneclock.dfy`, `ZoneClock`: `struct tm`, the minute carry, the hour wrap, the night test, and the corrected carry (see Findings).
- `watchface.dfy`, `Watchface`: the globals as the class `Face`, with the two-slot `timezones` array, the `tzNames` buffer and the offset fields. It has the tick and message handlers and `containerOf`.

The model follows the code as written:

- The code tests `> 60`, not `>= 60`.
- Slot 1 is GMT moved by the offset, and slot 0 is the local sample.
- The label is `"GMT+%d"` of `-tzOffset / 60`. There is no half-hour label table and no clamping.
- There is no asynchronous zone lookup and no failure label.
- Wrapping the hour leaves the day, month and year of the sample as they were.

The label prints the hour offset with its sign reversed after a literal
`+`: an offset of 300 minutes reads `GMT+-5`. Half hours are dropped
(-330 reads `GMT+5`). The model keeps both.

## Model

| member | source | states |
|---|---|---|
| CArith.Quot | src/main.c:154 | C's `a / b` for `b > 0`, truncated toward zero: it has the dividend's sign and is no larger in magnitude; its division identity is stated in `QuotRem` |
| CArith.Rem | src/main.c:155 | C's `a % b` for `b > 0`: strictly between `-b` and `b`, and never of the opposite sign to the dividend |
| CArith.QuotRem | src/main.c:154-155 | the split satisfies `hours * 60 + minutes == offset`; the remainder is strictly between -60 and 60; it is zero or has the offset's sign |
| CArith.QuotNegate | src/main.c:140 | truncating division is odd: `(-t) / 60 == -(t / 60)` |
| CArith.QuotRemInRange | src/main.c:154-155 | the hours and the remainder of a 32-bit offset are 32-bit values |
| CStr.CString | src/main.c:17-21 | a name pointer reads the longest NUL-free prefix of the buffer, ended by a NUL when the buffer goes on |
| CStr.CStringOfTerminated | src/main.c:140 | a NUL-free text followed by a NUL reads back as exactly that text |
| CStr.Truncate | src/main.c:140 | `snprintf` keeps a prefix of the text: all of a text that fits, and exactly `size - 1` characters of one that does not |
| CStr.Formatted | src/main.c:140 | after `snprintf` the buffer reads as the cut text, its size is unchanged, and the bytes after the NUL are untouched |
| CStr.FormattedIdempotent | src/main.c:140 | formatting the same text into the buffer twice leaves it as formatting it once |
| CStr.Snprintf | src/main.c:140 | the buffer ends up exactly as `Formatted` describes |
| Decimal.Digits | src/main.c:41-44 | the digits of a natural number are non-empty, all decimal digits, and have no leading zero |
| Decimal.DigitsRoundTrip | src/main.c:41-44 | reading the digits back gives the number |
| Decimal.NaturalRoundTrip | src/main.c:41-44 | a digit string without leading zeros is the digit string of its own value |
| Decimal.DigitsLength | src/main.c:33 | a number below 10^k has at most k digits |
| Decimal.DecimalString | src/main.c:35-55 | what `%d` prints and `itoa` returns: non-empty, a leading '-' exactly for negatives, digits without leading zero after it; the round trips are in `DecimalRoundTrip` and `CanonicalRoundTrip` |
| Decimal.DecimalRoundTrip | src/main.c:35-55 | the output is canonical: "0" for zero, a leading '-' exactly for negatives, no leading zeros, and it parses back to the input |
| Decimal.CanonicalRoundTrip | src/main.c:35-55 | every canonical string is the output for the number it parses to, so the encoding is a bijection onto canonical strings |
| Decimal.DecimalLength | src/main.c:33-38 | a 32-bit value takes at most 11 characters |
| Decimal.DigitStep | src/main.c:41-43 | one loop step moves the last digit of the remaining value in front of what is written |
| Decimal.ItoaReadsBack | src/main.c:39-54 | the characters from the returned pointer up to the terminator read back as the decimal form |
| Decimal.DigitBuffer.constructor | src/main.c:38 | the static buffer starts as 14 NULs |
| Decimal.DigitBuffer.Itoa | src/main.c:35-55 | the result index p is in [2, 12]; `buf[p..13]` is the decimal form; the terminator and every position below p are untouched |
| Decimal.DigitBuffer.PutNonNegative | src/main.c:40-45 | the do-while writes the digits of a non-negative value just before the terminator and nothing else |
| Decimal.DigitBuffer.PutNegative | src/main.c:47-51 | the do-while writes the digits of `-i` for negative `i` without negating `i`, leaving room for the sign |
| ZoneClock.CarryMinute | src/main.c:122-129 | only hour and minute change, and hour*60+minute grows by exactly the remainder; the hour moves by +1 exactly when the sum exceeds 60, by -1 exactly when it is negative, else not at all; for a valid minute and remainder the minute lands in [0, 60] and is 60 exactly when the sum is 60 |
| ZoneClock.WrapHour | src/main.c:131-138 | only the hour changes; the glyph is '+' exactly when 24 was subtracted, '-' exactly when 24 was added, ' ' when the hour was already in the day; an hour in [-24, 47] lands in [0, 23] |
| ZoneClock.Shift | src/main.c:122-138 | slot 1's carry, hour addition and wrap: only hour and minute change, the glyph is '+', '-' or ' ', and the clock moves by exactly the hours and minutes added plus the day the glyph reports |
| ZoneClock.ShiftByOffset | src/main.c:119-138 | only hour and minute of the sample change; the clock moves by exactly the offset plus the day the glyph reports, so it is congruent modulo 1440; with a valid sample and an offset in [-1440, 1440] the hour is in [0, 23], the minute in [0, 60], and the minute is 60 exactly when the sample's minute plus the remainder is 60 |
| ZoneClock.ShiftByZero | src/main.c:120-138 | a zero offset leaves the sample unchanged, with glyph ' ' |
| ZoneClock.ShiftWholeHours | src/main.c:130-138 | with no remainder the minute is kept and the hour moves by the offset hours modulo 24, staying in the day |
| ZoneClock.ShiftScenarios | src/main.c:122-138 | 23:45 plus 90 minutes is 01:15 with '+'; 00:10 minus 40 minutes is 23:30 with '-' |
| ZoneClock.IsNight | src/main.c:76 | for every hour of the day, night holds exactly for 19..23 and 0..5 |
| ZoneClock.CarryMinuteFixed | src/main.c:122-129 | the carry with `>= 60`: same clock value, and the minute always in [0, 59] |
| ZoneClock.ShiftFixed | src/main.c:122-138 | the shift with the corrected carry: only hour and minute change, the glyph is '+', '-' or ' ', and the clock moves by exactly the hours and minutes added plus the reported day; its ranges are in `ShiftFixedInRange` |
| ZoneClock.ShiftFixedInRange | src/main.c:119-138 | with the corrected carry, every offset of at most a day gives hour in [0, 23] and minute in [0, 59], still moved by exactly the offset up to one day |
| ZoneClock.MinuteSixtyShown | src/main.c:123 | 12:30 with a 30-minute offset shows minute 60 as written, and 13:00 with the corrected carry |
| Watchface.LabelText | src/main.c:140 | the `"GMT+%d"` text of `-tzOffset / 60`: "GMT+" then at least one character, a '-' right after it exactly when the truncated quotient is negative |
| Watchface.Label | src/main.c:140 | slot 0's label starts with "GMT+", is a prefix of the formatted text of at most 7 characters, is the whole text when it fits, and is exactly 7 characters when it does not |
| Watchface.LabelNotCut | src/main.c:140 | for an offset of at most a day the label is "GMT+" then the decimal of `-offset / 60`, which parses back to that value and equals the negated hour part `-(offset / 60)` |
| Watchface.LabelExamples | src/main.c:140 | 300 gives "GMT+-5", -120 gives "GMT+2", 0 gives "GMT+0", -330 gives "GMT+5" |
| Watchface.LabelCut | src/main.c:17 | a label too long for the 8-byte buffer keeps its first 7 characters (600000 gives "GMT+-10") |
| Watchface.LabelHasNoNul | src/main.c:140 | the formatted label text contains no NUL |
| Watchface.TickZones | src/main.c:139-143 | after a tick both slots are dirty and keep their names and layers, and slot 0 is its old self with exactly the tick's sample |
| Watchface.TickSlotOne | src/main.c:119-138 | for a valid GMT sample and an offset of at most a day, slot 1's hour is in [0, 23] and its minute in [0, 60] (60 exactly when minute plus remainder is 60); the other sample fields are copied; the glyph buffer is one of '+', '-', ' ' followed by NUL; the clock is moved by the offset up to the reported day |
| Watchface.TickZeroOffset | src/main.c:120-138 | with a zero offset slot 1 shows the GMT sample unchanged with glyph " " |
| Watchface.TickIdempotent | src/main.c:115-144 | ticking twice with the same samples and offset gives the same slots and the same `tzNames` buffer as ticking once |
| Watchface.Face.constructor | src/main.c:17-31 | zero offset and split, an all-NUL label buffer, slot 0 named by the buffer with glyph " ", slot 1 named "Zulu" |
| Watchface.Face.HandleTick | src/main.c:115-144 | the slots become `TickZones` of the old slots; the label buffer becomes `Formatted` with "GMT+" and `-tzOffset / 60`; slot 0's name reads as `Label(tzOffset)` and slot 1's as "Zulu"; the offset fields are unchanged |
| Watchface.Face.InReceived | src/main.c:150-160 | when the message has no `AKEY_TZOFFSET` key every global is unchanged; with it `tzOffset` is the value under that key, the split satisfies `hours * 60 + minutes == tzOffset` with both parts 32-bit values, and the full tick update follows with the new offset |
| Watchface.Face.ContainerOf | src/main.c:57-64 | the result is a valid slot; it is the first slot whose layer is `me` when there is one, and slot 0 otherwise |

## Left out

- Drawing and UI are not modelled: `timezone_layer_update` apart from its night test, fonts, layers, the window, `init`, `deinit` and `main` (src/main.c:66-111, 162-215). They are platform calls.
- `time`, `gmtime` and `localtime` are not modelled. Their samples are parameters: `tickTime` or `localNow`, and `gmt`.
- `strftime` rendering (src/main.c:71-74) is a C library call. Its `SECOND_UNIT` branch is dead, since the tick unit is `MINUTE_UNIT`.
- The `app_message` calls are not modelled. The received dictionary is a map from keys to 32-bit values, and `dict_find` is a key lookup; the tuple's type tag and length are not modelled.
- `snprintf` is modelled only by its result: the text cut to the buffer, a NUL, and the later bytes untouched.
- Watchface.Face.HandleTick: requires `tzOffset != INT_MIN`, because `-tzOffset` at src/main.c:140 overflows there.
- Watchface.Face.InReceived: requires the value under `AKEY_TZOFFSET` to differ from INT_MIN, for the same overflow.
- The `units_changed` argument of the tick handler is unused by the source and is not a parameter.
- The `tm_min`/`tm_hour` sums are computed on unbounded integers. For samples in range and any 32-bit offset they stay well within `int`, so no wrap-around applies.
- Layers are integer handles (0 for none). `layer_mark_dirty` is a per-slot `dirty` flag; nothing in this core clears it.
- `struct tm` is modelled by its nine ISO C fields.
- Decimal.DigitBuffer.Itoa: its two do-while loops are the helper methods `PutNonNegative` and `PutNegative`. Its pointer result is an index into the buffer.
- Decimal.DigitBuffer.Itoa: says nothing about earlier results in the static buffer. The model only states which positions a call leaves untouched.
- The code has no asynchronous zone lookup, named-zone label, half-hour label table with clamping or failure label, so none is modelled.
- Watchface.Face.HandleTick: the tick sample and the `gmtime` result are separate values. On a C library where `localtime` and `gmtime` return the same static `struct tm` (C11 section 7.27.3), the message and init paths give slot 0 the GMT sample, because `*tick_time` is read only after `gmtime` has run. The model does not capture that shared buffer.
- Watchface.Face.InReceived: the local sample `localNow` and the GMT sample are likewise separate values, so the shared `struct tm` case above is not captured here either.

## Findings

| source | as written | input that shows it | evidently intended | confidence | as-written member | corrected member |
|---|---|---|---|---|---|---|
| src/main.c:123 | the carry test `tm_min > 60` lets a sum of exactly 60 through, so slot 1 keeps minute 60 | GMT sample 12:30 with `tzOffset = 30`: slot 1 reads 12:60 | `>= 60`, giving 13:00 | high; not executed | ZoneClock.MinuteSixtyShown | ZoneClock.ShiftFixedInRange |

The handlers in `Watchface` keep the carry as written (`CarryMinute`),
because the model mirrors the program. `ShiftFixed`, built on
`CarryMinuteFixed`, is the intended behaviour. Its range property is proved
alongside.
