# MAX7219 LED clock — a Dafny model of its layout and decision core

`led_clock.py` drives a 32x8 MAX7219 LED matrix as a clock. It performs these steps:
- It right-aligns `HH:MM` with a custom two-dot colon.
- It draws the CPU temperature on the left in a tiny 3x5 bitmap font, leaving the time where it is.
- It scrolls an English date ("Sun 10 Aug 2025") at a set interval.
- It switches between a day and a night brightness by a time-of-day window that may cross midnight.
- It draws a seconds progress bar on the bottom row.
- It sparkles on the hour.
- It slides the new time in from the right when the minute changes.

This project models the integer and string core of that script and proves what it promises. The files are:

- `text.dfy` (`PyText`): the Python string and integer behaviour the script relies on. It covers:
  - `str.split(sep)` and `str.split(sep, 1)`;
  - `int()` on ASCII text, with surrounding whitespace, a sign and single underscores;
  - decimal formatting, `:02d`, and `s[:2]` / `s[-2:]`.
- `calendar.dfy` (`Calendar`): `datetime` fields, their validity, and `weekday()` (0 is Monday) in the proleptic Gregorian calendar.
- `window.dfy` (`Window`): `_parse_hhmm` and the night-window test `_in_window`.
- `canvas.dfy` (`Canvas`): the draw surface, a class whose only state is the set of lit points. `draw.point` adds one point.
- `font.dfy` (`Font`): `DIGITS_3x5`, `small35_text_size` (a loop summing widths) and `draw_small35` (nested loops plotting points). Both are specified by functions on the text.
- `time_layout.dfy` (`TimeLayout`): `draw_time_with_custom_colon`. It computes:
  - the split of the time string;
  - the shrinking of the left reservation;
  - the right-aligned x positions;
  - the vertical centring;
  - the two colon dots.
- `temperature.dfy` (`Temperature`): the temperature text (clamped reading, or `"--"`) and the left-reservation budget of the main loop.
- `seconds_bar.dfy` (`SecondsBar`): the number of filled columns and `draw_seconds_bar`'s two loops.
- `date_text.dfy` (`DateText`): `format_en_date`, and a reader for its output that proves the text names its date.
- `frame.dfy` (`Frame`): one normal frame (temperature widget, time, seconds bar), and why those layers never overlap.
- `animation.dfy` (`Animation`): the frames of `minute_swipe` and the positions of `marquee_once_legacy`.
- `clock_loop.dfy` (`ClockLoop`): `main()`'s loop. `Step` is one pass; `Run` is the whole loop over a sequence of clock readings.

The outside world enters as parameters:
- The display's width and height.
- luma's `textsize` for the time and ticker fonts, as functions from a string to `(width, height)`.
- The formatted time string, which `strftime` produces in the source.
- The rounded temperature reading.
- The wall-clock time.
- The monotonic clock readings around the ticker.

`legacy_text` output is not modelled. A frame records where the hours and minutes are drawn, and exactly which points the script plots itself.

Five consequences about the loop come out of the proofs.

**The two splits of the time string.** The main loop measures the time's width from `s.split(":")`, falling back to `s[:2]` / `s[-2:]`. The drawing routine uses `s.split(":", 1)`, falling back to `"88"` / `"88"`.
- They agree when the string has one colon (`TimeLayout.SplitsAgree`). Then every point of the temperature widget lies left of the hours (`ClockLoop.PassTempLeftOfTime`).
- For an `HH:MM:SS` text the main loop measures the hours and the seconds, but the hours and `MM:SS` are drawn (`TimeLayout.SplitsDisagreeWithSeconds`).
- A text without a colon is drawn as `"88"` / `"88"` but measured by its first and last two characters, so the two agree only when both of those are `"88"` (`TimeLayout.SplitsWithoutColon`).
- So with a non-default time format, the reservation can be computed for a different text than the one drawn. With `HH:MM:SS` the widget can then light columns inside the hours (`ClockLoop.SecondsFormatOverlap`).

**The brightness invariant.** With auto-dim on, the brightness after every pass is the night window's choice for that pass's time (`ClockLoop.BrightnessTracksWindow`).
- This needs consecutive passes never to show the same minute of different hours (`ClockLoop.NoHourJump`).
- If the wall clock jumps by a whole number of hours, the once-per-minute check is skipped.

**The hour sparkle.** It fires on every pass whose time is at minute 0, second 0 (`ClockLoop.SparkleAndTickerApart`). A later pass in the same second fires it again.

**The ticker.** It is due when its interval has passed since the previous scroll ended, and never at minute 0, second 0. Consecutive scrolls start at least that interval after the previous one ended (`ClockLoop.TickerSpacing`).

**The seconds bar.** It never lights the last column: `filled` is below `width` at every instant of the minute (`SecondsBar.Filled`, `SecondsBar.FilledAtMinuteBounds`).

## Model

| member | source | states |
|---|---|---|
| Window.ParseHhmm | led_clock.py:53-58 | the result is either the fallback or an hour in [0,24) and a minute in [0,60) |
| Window.ParseHhmmNeedsOneColon | led_clock.py:53-58 | a text that does not split into exactly two parts at ':' gives the fallback unchanged |
| Window.ParseHhmmNeedsInts | led_clock.py:53-58 | a text with one colon whose hour or minute part `int()` rejects gives the fallback unchanged |
| Window.ParseHhmmRejectsExamples | led_clock.py:53-58 | "22:", "ab:30" and "22:3O" give the fallback |
| Window.ParseHhmmOfInts | led_clock.py:53-58 | any two integers written as "h:m" read back as (h mod 24, m mod 60), negative and large values included |
| Window.ParseHhmmOfPadded | led_clock.py:53-58 | a zero-padded "HH:MM" of an in-range time reads back as exactly that time |
| Window.DefaultNightFromParses | led_clock.py:275 | the default night start "22:30" reads as (22,30), whatever the fallback |
| Window.DefaultNightToParses | led_clock.py:276 | the default night end "07:00" reads as (7,0), whatever the fallback |
| Window.InWindowAsDistance | led_clock.py:60-68 | both branches (normal and across midnight) agree with one rule: the minutes since the start, mod 1440, are fewer than the window's length mod 1440 |
| Window.EmptyWindow | led_clock.py:60-68 | a window whose start equals its end contains no time |
| Window.WindowBoundaries | led_clock.py:60-68 | for a non-empty window the start minute is inside and the end minute is outside |
| Window.WindowComplement | led_clock.py:60-68 | swapping start and end gives exactly the complementary set of minutes |
| Window.DefaultNightWindow | led_clock.py:60-68 | the default 22:30-07:00 window contains 22:30, 23:00 and 00:00 and excludes 07:00 and 12:00 |
| PyText.Split | led_clock.py:55 | `str.split(sep)` gives at least one part and no part contains the separator |
| PyText.SplitJoin | led_clock.py:55 | joining the parts with the separator restores the text, and there is one part more than separators |
| PyText.SplitOnceSpec | led_clock.py:142-143 | `split(sep, 1)` succeeds iff the separator occurs; the two parts around the first separator rebuild the text |
| PyText.ParseIntToString | led_clock.py:55 | `int()` of any integer's decimal text gives that integer back |
| PyText.Pad2 | led_clock.py:178 | `:02d` of a number below 100 is two digits whose value is the number |
| PyText.Head2 | led_clock.py:342 | `s[:2]` is a prefix of length min(2, len(s)) |
| PyText.Tail2 | led_clock.py:342 | `s[-2:]` is a suffix of length min(2, len(s)) |
| Calendar.Weekday | led_clock.py:178 | `weekday()` lies in 0..6 |
| Calendar.WeekdayNextDay | led_clock.py:178 | the next day of the same month has the next weekday, mod 7 |
| Calendar.SampleDateIsSunday | led_clock.py:178 | 10 August 2025 is a Sunday (weekday 6), at any time of day |
| Font.KnownChars | led_clock.py:92-105 | the 3x5 font has glyphs exactly for the digits, '-' and 'C' |
| Font.GlyphTableWellFormed | led_clock.py:92-105 | every glyph has five rows of three cells, each '0' or '1' |
| Font.Small35TextSize | led_clock.py:107-115 | the loop computes the text's width as the width function defines it, and height 5 |
| Font.TextWidthClosedForm | led_clock.py:107-115 | width is 3 per known glyph plus `spacing` for each known glyph other than one at the last index |
| Font.AllKnownWidth | led_clock.py:107-115 | a non-empty text of known glyphs is 3n + spacing(n-1) wide |
| Font.DropUnknownWidth | led_clock.py:107-115 | removing an unknown character that is not last leaves the width unchanged |
| Font.SpacingByIndex | led_clock.py:110-114 | spacing is decided by string index: "5?" is one column wider than "5" and "?5" |
| Font.WidthUpToMonotone | led_clock.py:107-115 | with non-negative spacing the running width never decreases |
| Font.NoKnownWidth | led_clock.py:107-115 | a text without known glyphs, the empty text included, has width 0 at every prefix |
| Font.NoKnownNothingDrawn | led_clock.py:107-130 | a text without known glyphs lights no point and has width 0 |
| Font.DrawSmall35 | led_clock.py:117-130 | the nested loops add to the surface exactly the text's points and nothing else |
| Font.DrawGlyph | led_clock.py:124-127 | one glyph adds exactly its glyph points |
| Font.GlyphPointsExact | led_clock.py:124-127 | a glyph lights exactly the '1' cells of its rows, offset by the cursor |
| Font.TextPointsExact | led_clock.py:117-130 | a point is lit iff it is a lit cell of some known glyph at that glyph's cursor position |
| Font.TextPointsInBox | led_clock.py:117-130 | every lit point lies in [x, x + width) x [y, y + 5), width being small35_text_size's |
| Canvas.Surface.constructor | led_clock.py:190 | a fresh canvas has no lit point |
| Canvas.Surface.Plot | led_clock.py:127 | plotting adds exactly that one point |
| TimeLayout.SplitForDraw | led_clock.py:142-145 | with a colon the parts rebuild the string around its first colon; without one both parts are "88" |
| TimeLayout.SplitsAgree | led_clock.py:339-342 | the main loop's split and the drawing split agree on a string with exactly one colon |
| TimeLayout.SplitsDisagreeWithSeconds | led_clock.py:339-342 | for colon-free HH, MM and SS, HH and SS two characters long, the main loop measures (HH, SS) of "HH:MM:SS" while (HH, "MM:SS") is drawn |
| TimeLayout.SplitsWithoutColon | led_clock.py:339-342 | for any text without a colon the main loop measures its first and last two characters while ("88","88") is drawn, so the two agree iff both of those are "88" |
| TimeLayout.PlotColon | led_clock.py:164-167 | the colon adds exactly its two dots, at the rows the dot formula gives |
| TimeLayout.ShrinkReserved | led_clock.py:151-153 | after the shrink, reservation plus time fits whenever the time alone fits; the reservation never grows and is kept when it fits |
| TimeLayout.ColonDotsInside | led_clock.py:164-165 | with h >= 1 and a non-negative gap, y <= t1 <= t2 <= y + h - 1 |
| TimeLayout.ColonDotsCentred | led_clock.py:164-165 | when the gap fits, the dots are exactly `colon_vgap` apart and centred, with the extra row (if any) below |
| TimeLayout.LayoutTime | led_clock.py:147-170 | hours start at max(0, width - w_time) + offset, the colon and minutes follow with the gaps, the minutes end at hours + w_time, the colon is lit iff not blinking, and its dots lie in its column within the text's rows |
| TimeLayout.DrawTimeWithCustomColon | led_clock.py:133-170 | the routine places the time as the layout defines and plots exactly the colon dots |
| TimeLayout.BlinkOnlyHidesColon | led_clock.py:163-167 | blinking removes the two colon points and changes nothing else |
| TimeLayout.ReservationDoesNotMoveTime | led_clock.py:151-159 | the time's position does not depend on the (non-negative) reservation passed in |
| TimeLayout.RightAligned | led_clock.py:151-159 | a time that fits ends at the right edge and starts at or right of the reserved area |
| TimeLayout.OffsetShiftsTime | led_clock.py:155-170 | an offset moves hours, colon column, minutes and colon dots by exactly that many columns and nothing else |
| TimeLayout.TimeRowFits | led_clock.py:156 | text no taller than the display is drawn inside it, centred: the margin below equals the margin above or exceeds it by one row |
| Temperature.Clamp | led_clock.py:349 | the reading is limited to [-99, 199] and kept when inside |
| Temperature.ClampedTextShape | led_clock.py:349 | the text of a clamped reading is one to three glyphs of the 3x5 font |
| Temperature.TempRawShape | led_clock.py:349 | the raw text has 1 to 3 characters, all in the 3x5 font, and reads back as the clamped reading |
| Temperature.TempWidths | led_clock.py:350-351 | the raw text is 4n - 1 columns wide, and 4n + 3 with the unit |
| Temperature.Reserve | led_clock.py:346-361 | the reservation lies within max(0, width - w_time); it is 0 without a text and the text's width with one; the text is raw+"C" or raw; nothing is shown when the toggle is off or fewer than 3 columns are free |
| Temperature.ReserveChoice | led_clock.py:355-359 | raw+"C" whenever the unit is on and it fits; else raw when it fits; else nothing |
| Temperature.SameLengthSameReservation | led_clock.py:349-361 | readings with equally long texts reserve the same width, so the layout does not move as the temperature changes |
| Temperature.ReserveExamples | led_clock.py:346-361 | on a 32-column display with a 17-column time, 42 degrees reserves "42C" (11 columns), no reading reserves "--C", and a 30-column time leaves no widget |
| SecondsBar.Filled | led_clock.py:197-198 | the number of filled columns is below the width (or 0 for width 0) at every instant of the minute |
| SecondsBar.FilledMonotone | led_clock.py:197-198 | later in the minute never gives fewer filled columns |
| SecondsBar.FilledAtMinuteBounds | led_clock.py:197-198 | 0 columns at second 0, and width - 1 in the minute's last microsecond |
| SecondsBar.DrawSecondsBar | led_clock.py:195-204 | both loops add exactly the bar's points and nothing else |
| SecondsBar.BarPointsExact | led_clock.py:199-204 | solid mode lights exactly columns 0..filled-1 of row y; dotted mode exactly the even ones among them |
| SecondsBar.BarGrows | led_clock.py:195-204 | within a minute the lit bar only grows |
| SecondsBar.BarOnDisplay | led_clock.py:385-386 | on the bottom row the bar stays on the display and never reaches the last column |
| DateText.NamesShape | led_clock.py:173-175 | the weekday and month names are distinct, three letters each, without spaces |
| DateText.ParseFormat | led_clock.py:177-179 | the date text reads back as its weekday, day, month and (when asked for) year |
| DateText.FormatInjective | led_clock.py:177-179 | with the year, different calendar days give different texts |
| DateText.FormatLength | led_clock.py:177-179 | the text has 10 characters without the year and 15 with a four-digit year |
| DateText.FormatExample | led_clock.py:177-179 | 10 August 2025 gives "Sun 10 Aug 2025", or "Sun 10 Aug" |
| Frame.DrawTempWidget | led_clock.py:374-377 | the widget adds the temperature text's points at column 0, or nothing without a text |
| Frame.DrawNormalFrame | led_clock.py:372-386 | a frame lights exactly the widget, the colon and (when enabled) the bar, with the time placed as the layout defines |
| Frame.TempLeftOfTime | led_clock.py:346-361 | when the measured widths are the drawn ones, every widget point lies left of the hours, within the widget's five rows, whatever the reading |
| Frame.TempAboveBar | led_clock.py:375-377 | on a display at least 6 rows high the widget stays above the bottom row |
| Frame.ColonAboveBar | led_clock.py:164-165 | text shorter than the display keeps the colon above the bottom row |
| Frame.LayersDisjoint | led_clock.py:372-386 | the bar shares no point with the widget or the colon |
| Animation.MinuteSwipe | led_clock.py:218-238 | the loop draws one frame per offset from max(1, swipe_px) down to 0, each the widget plus the unblinking time at that offset |
| Animation.DrawSwipeFrame | led_clock.py:229-237 | one swipe canvas holds the widget and the unblinking time drawn at that offset |
| Animation.DrawnOffset | led_clock.py:235-237 | a swipe offset moves the drawn time by exactly that many columns |
| Animation.SwipeSlidesIn | led_clock.py:225-237 | from one swipe frame to the next the time moves exactly one column left, colon included, on the same row |
| Animation.SwipeEnds | led_clock.py:225-237 | there are max(1, swipe_px) + 1 frames; the first is at least one column right of the rest position, the last is at the rest position, and the widget is in every frame |
| Animation.MarqueeOnce | led_clock.py:181-192 | the loop gives one position per offset in [0, width + w + gap), each x = width - offset on the centred row |
| Animation.MarqueeEnds | led_clock.py:184-189 | the text enters at the right edge, moves one column left per frame on a fixed row, and has left the display by the last frame when the gap is at least 1 |
| Animation.MarqueeShowsEverything | led_clock.py:184-189 | every column of the text passes over every display column in some frame |
| Animation.MarqueeCentred | led_clock.py:189 | text no taller than the display is centred vertically: the margin below equals the margin above or exceeds it by one row |
| ClockLoop.AutoDim | led_clock.py:315-320 | the check runs only on a new minute; then the brightness is the window's, and contrast is sent only if it differs from the current one |
| ClockLoop.Ticker | led_clock.py:328-331 | the date scrolls iff the interval has passed and it is not minute 0, second 0; the timestamp is renewed only then |
| ClockLoop.MeasureTime | led_clock.py:339-345 | w_time is measured from the main loop's own split with gaps and colon of 1 |
| ClockLoop.PrepareTemp | led_clock.py:346-361 | the reservation block computes the reservation the budget function defines |
| ClockLoop.NormalFrame | led_clock.py:372-386 | a fresh canvas ends with exactly the frame's points |
| ClockLoop.SwipeOnNewMinute | led_clock.py:363-369 | the swipe runs iff it is enabled and the minute differs from the last rendered one (or none was rendered); only then is that minute recorded |
| ClockLoop.FinishPass | led_clock.py:333-386 | the rest of a pass blinks on odd seconds, reserves, swipes on a new minute and draws the frame of its reading, passing the earlier results through |
| ClockLoop.Step | led_clock.py:311-386 | one pass updates brightness, dim minute, ticker timestamp and last rendered minute as the source does; it sparkles on the hour, swipes on a new minute and draws the frame of its reading |
| ClockLoop.StepPass | led_clock.py:311-386 | one pass keeps the loop's variables equal to their definitions over the readings so far |
| ClockLoop.Run | led_clock.py:293-386 | the initial brightness is the window's, and every pass is recorded with its brightness, contrast, swipe, ticker and frame as the readings so far determine |
| ClockLoop.BrightnessTracksWindow | led_clock.py:293-320 | with auto-dim on and no hour-sized jump between passes, the brightness after every pass is the window's for that pass's time |
| ClockLoop.NoDimKeepsBrightness | led_clock.py:315-320 | with auto-dim off no contrast is ever sent and the initial brightness stays |
| ClockLoop.ContrastOncePerMinute | led_clock.py:315-320 | a pass in the same minute as the previous one sends no contrast and keeps the brightness |
| ClockLoop.SparkleAndTickerApart | led_clock.py:322-331 | a pass sparkles iff the sparkle is on and it is minute 0, second 0; the ticker never scrolls then |
| ClockLoop.TickerSpacing | led_clock.py:310-331 | two scrolls start at least `ticker_every` after the earlier one ended |
| ClockLoop.TickerFirstWait | led_clock.py:310-331 | the first scroll starts at least `ticker_every` after the loop started |
| ClockLoop.PassTempLeftOfTime | led_clock.py:339-361 | in a pass whose time text has exactly one colon, every widget point lies left of the hours, within the widget's five rows |
| ClockLoop.SecondsFormatOverlap | led_clock.py:339-361 | with an HH:MM:SS text on 32 columns (two-digit pieces 7 wide, MM:SS 17 wide) and 42 degrees, "42C" reserves 11 columns while the hours start at column 5, and the widget lights column 8 inside the hours |
| ClockLoop.TickerBaseQuiet | led_clock.py:310-331 | without any scroll the ticker timestamp is still the loop's start |

## Left out

- SPI, `max7219`, luma's `canvas`, `legacy_text` and `textsize` are foreign library calls. The display's size and the fonts' `textsize` are parameters. The glyphs `legacy_text` draws are not modelled; a frame records only where the hours and minutes go, plus the points the script plots itself.
- `get_cpu_temp_c` reads a sysfs file and runs `vcgencmd`. The temperature is a parameter: an optional reading already rounded to an integer. The float rounding of `round()` is not modelled; clamping before or after rounding gives the same integer.
- `hour_sparkle` draws random pixels for a float duration. A pass records only whether it sparkled.
- `time.sleep` and all frame delays are not modelled. The monotonic clock is, but as integer readings supplied with each pass, and `ticker_every` is an integer, not a float.
- ClockLoop.TickerDue: the comparison `time.monotonic() - last_ticker_ts >= ticker_every` is stated on integers, not floats.
- SecondsBar.Filled: it is the exact integer quotient (second * 10^6 + microsecond) * width / (60 * 10^6). The source's float expression can round differently at a column boundary, so it may differ there by one column.
- The signal handlers and the `stop` flag are asynchronous cancellation. The loop is modelled over a finite sequence of passes, and both animations always run to their last frame.
- `_env_int`, `_env_float`, `_env_bool` and `os.getenv` are environment reads. The settings are a `Config` value. `LED_DRAW_TEMP` is re-read on every pass, so it is a field of each reading; the `show_temp` value read at start-up is unused in the source, and so is not modelled.
- `strftime` is not modelled: the time string is an input of each pass.
- PyText.ParseInt: Python's `int()` also accepts non-ASCII digits and whitespace; the model accepts ASCII only.
- Invalid dates and times are excluded by a precondition, as a `datetime` cannot hold them.
- `device.clear()` when the loop ends is not modelled; neither are the hardware settings (port, bus speed, cascade, orientation, rotation), which only configure the device.
