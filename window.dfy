/** The night-window test: `_parse_hhmm` turns an "HH:MM" setting into an
    (hour, minute) pair, and `_in_window` decides whether the current time
    lies in a half-open [start, end) window of minutes, which may cross
    midnight. */
module Window {
  import opened PyText
  import opened Calendar

  type HourMinute = (int, int)

  const MinutesPerDay: int := 1440

  /** `_parse_hhmm(s, fallback)`: split at every ':'; exactly two pieces,
      both accepted by `int()`, give (h mod 24, m mod 60); anything else
      gives `fallback` unchanged. */
  function ParseHhmm(s: string, fallback: HourMinute): (r: HourMinute)
    ensures r == fallback || (0 <= r.0 < 24 && 0 <= r.1 < 60)
  {
    var parts := Split(s, ':');
    if |parts| != 2 then fallback
    else
      match (ParseInt(parts[0]), ParseInt(parts[1]))
      case (Some(h), Some(m)) => (h % 24, m % 60)
      case _ => fallback
  }

  /** A setting without exactly one ':' falls back. */
  lemma ParseHhmmNeedsOneColon(s: string, fallback: HourMinute)
    requires Count(s, ':') != 1
    ensures ParseHhmm(s, fallback) == fallback
  {
    SplitJoin(s, ':');
  }

  /** A setting with one ':' whose hour or minute part `int()` rejects
      falls back. */
  lemma ParseHhmmNeedsInts(a: string, b: string, fallback: HourMinute)
    requires ':' !in a && ':' !in b
    requires ParseInt(a).None? || ParseInt(b).None?
    ensures ParseHhmm(a + ":" + b, fallback) == fallback
  {
    SplitAround(a, b, ':');
  }

  /** "22:" (empty minute), "ab:30" and "22:3O" (a letter O) all fall back. */
  lemma ParseHhmmRejectsExamples(fallback: HourMinute)
    ensures ParseHhmm("22:", fallback) == fallback
    ensures ParseHhmm("ab:30", fallback) == fallback
    ensures ParseHhmm("22:3O", fallback) == fallback
  {
    var h, e, l, m, o := "22", "", "ab", "30", "3O";
    assert Strip(e) == e && Strip(l) == l && Strip(o) == o;
    ParseHhmmNeedsInts(h, e, fallback);
    ParseHhmmNeedsInts(l, m, fallback);
    ParseHhmmNeedsInts(h, o, fallback);
    assert h + ":" + e == "22:";
    assert l + ":" + m == "ab:30";
    assert h + ":" + o == "22:3O";
  }

  /** Any two integers written around a ':' parse to their residues, so the
      hour is in [0, 24) and the minute in [0, 60) even for negative or large
      settings ("-1:75" is 23:15). */
  lemma ParseHhmmOfInts(h: int, m: int, fallback: HourMinute)
    ensures ParseHhmm(IntToString(h) + ":" + IntToString(m), fallback) == (h % 24, m % 60)
  {
    IntToStringNoColon(h);
    IntToStringNoColon(m);
    SplitAround(IntToString(h), IntToString(m), ':');
    ParseIntToString(h);
    ParseIntToString(m);
  }

  /** Round trip with the "HH:MM" format: a zero-padded time in range parses
      back to itself. */
  lemma ParseHhmmOfPadded(h: nat, m: nat, fallback: HourMinute)
    requires h < 24 && m < 60
    ensures ParseHhmm(Pad2(h) + ":" + Pad2(m), fallback) == (h, m)
  {
    var a, b := Pad2(h), Pad2(m);
    Pad2Reads(h);
    Pad2Reads(m);
    assert ':' !in a && ':' !in b;
    SplitAround(a, b, ':');
  }

  function MinuteOfDay(hm: HourMinute): (r: int) {
    hm.0 * 60 + hm.1
  }

  /** `_in_window(now, start_hm, end_hm)`. */
  predicate InWindow(now: DateTime, startHm: HourMinute, endHm: HourMinute) {
    var cur := now.hour * 60 + now.minute;
    var s := MinuteOfDay(startHm);
    var e := MinuteOfDay(endHm);
    if s <= e then s <= cur < e else cur >= s || cur < e
  }

  predicate InDay(hm: HourMinute) {
    0 <= MinuteOfDay(hm) < MinutesPerDay
  }

  /** An independent reading of the window: counting minutes forward from
      the start (modulo one day), the current minute comes before the end
      does. This treats ordinary and midnight-crossing windows alike. */
  lemma InWindowAsDistance(now: DateTime, startHm: HourMinute, endHm: HourMinute)
    requires Valid(now) && InDay(startHm) && InDay(endHm)
    ensures InWindow(now, startHm, endHm) <==>
              (now.hour * 60 + now.minute - MinuteOfDay(startHm)) % MinutesPerDay
              < (MinuteOfDay(endHm) - MinuteOfDay(startHm)) % MinutesPerDay
  {
    var cur := now.hour * 60 + now.minute;
    var s := MinuteOfDay(startHm);
    var e := MinuteOfDay(endHm);
    assert 0 <= cur < MinutesPerDay;
    ModDay(cur - s);
    ModDay(e - s);
  }

  lemma ModDay(a: int)
    requires -MinutesPerDay < a < MinutesPerDay
    ensures a % MinutesPerDay == if a >= 0 then a else a + MinutesPerDay
  {
  }

  /** A window whose start equals its end is empty. */
  lemma EmptyWindow(now: DateTime, hm: HourMinute)
    ensures !InWindow(now, hm, hm)
  {
  }

  /** The start minute is inside a non-empty window and the end minute is
      not: the window is half-open. */
  lemma WindowBoundaries(now: DateTime, startHm: HourMinute, endHm: HourMinute)
    requires Valid(now) && InDay(startHm) && InDay(endHm)
    requires MinuteOfDay(startHm) != MinuteOfDay(endHm)
    ensures now.hour * 60 + now.minute == MinuteOfDay(startHm) ==> InWindow(now, startHm, endHm)
    ensures now.hour * 60 + now.minute == MinuteOfDay(endHm) ==> !InWindow(now, startHm, endHm)
  {
  }

  /** Swapping start and end gives exactly the complementary window, so
      every minute of the day is in the night window or in the day window and
      never in both. */
  lemma WindowComplement(now: DateTime, a: HourMinute, b: HourMinute)
    requires Valid(now) && InDay(a) && InDay(b)
    requires MinuteOfDay(a) != MinuteOfDay(b)
    ensures InWindow(now, a, b) <==> !InWindow(now, b, a)
  {
  }

  /** The default night window 22:30-07:00: 23:00 and midnight are night,
      noon is day, 07:00 itself is already day and 22:30 already night. */
  lemma DefaultNightWindow(d: DateTime)
    ensures var night := InWindow(d, (22, 30), (7, 0));
            && (d.hour == 23 && d.minute == 0 ==> night)
            && (d.hour == 0 && d.minute == 0 ==> night)
            && (d.hour == 12 && d.minute == 0 ==> !night)
            && (d.hour == 7 && d.minute == 0 ==> !night)
            && (d.hour == 22 && d.minute == 30 ==> night)
  {
  }

  /** The default start of the night window, "22:30", parses to (22, 30)
      whatever the fallback. */
  lemma DefaultNightFromParses(fallback: HourMinute)
    ensures ParseHhmm("22:30", fallback) == (22, 30)
  {
    ParseHhmmOfPadded(22, 30, fallback);
    assert Pad2(22) == "22" && Pad2(30) == "30";
    assert Pad2(22) + ":" + Pad2(30) == "22:30";
  }

  /** The default end of the night window, "07:00", parses to (7, 0)
      whatever the fallback. */
  lemma DefaultNightToParses(fallback: HourMinute)
    ensures ParseHhmm("07:00", fallback) == (7, 0)
  {
    ParseHhmmOfPadded(7, 0, fallback);
    assert Pad2(7) == "07" && Pad2(0) == "00";
    assert Pad2(7) + ":" + Pad2(0) == "07:00";
  }
}
