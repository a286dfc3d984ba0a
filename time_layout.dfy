/** The integer layout of `draw_time_with_custom_colon`: HH:MM right-aligned
    against the display's right edge, a left area reserved for the
    temperature that shrinks rather than pushing the time off-screen, and a
    colon made of two single dots in one column.

    The widths of the hour and minute text and the text height come from the
    display library's `textsize` and are parameters here (`wH`, `wM`, `h`);
    drawing the digits themselves is that library's business. */
module TimeLayout {
  import opened PyText
  import opened Canvas

  /** How `draw_time_with_custom_colon` splits the time string: at the first
      ':' (`split(":", 1)`), or the placeholder "88", "88" when there is none. */
  function SplitForDraw(timestr: string): (r: (string, string))
    ensures ':' in timestr ==> r.0 + ":" + r.1 == timestr && ':' !in r.0
    ensures ':' !in timestr ==> r == ("88", "88")
  {
    SplitOnceSpec(timestr, ':');
    match SplitOnce(timestr, ':')
    case Some(p) => p
    case None => ("88", "88")
  }

  /** How the main loop splits the same string to measure it: `s.split(":")`
      into exactly two pieces, and otherwise `s[:2]`, `s[-2:]`. */
  function SplitForMeasure(s: string): (r: (string, string)) {
    var parts := Split(s, ':');
    if |parts| == 2 then (parts[0], parts[1]) else (Head2(s), Tail2(s))
  }

  /** For a time string with exactly one ':' (such as the default "%H:%M")
      the main loop measures the same two pieces that are drawn. */
  lemma SplitsAgree(s: string)
    requires Count(s, ':') == 1
    ensures SplitForMeasure(s) == SplitForDraw(s)
  {
    SplitJoin(s, ':');
    CountZero(s, ':');
    var parts := Split(s, ':');
    assert Join(parts[1..], ':') == parts[1];
  }

  /** With other formats the two splits can differ. For a "%H:%M:%S" text
      the main loop measures the hours and the seconds, while the hours and
      "MM:SS" are drawn. */
  lemma SplitsDisagreeWithSeconds(hh: string, mm: string, ss: string)
    requires ':' !in hh && ':' !in mm && ':' !in ss
    requires |hh| == 2 && |ss| == 2
    ensures SplitForMeasure(hh + ":" + mm + ":" + ss) == (hh, ss)
    ensures SplitForDraw(hh + ":" + mm + ":" + ss) == (hh, mm + ":" + ss)
  {
    var s := hh + ":" + mm + ":" + ss;
    assert s == hh + [':'] + mm + [':'] + ss;
    SplitThree(hh, mm, ss, ':');
    assert Split(s, ':')[1..] == [mm, ss];
    assert Join([mm, ss], ':') == mm + ":" + ss;
    assert Head2(s) == hh;
    assert s[|s| - 2..] == ss;
  }

  /** For a format without ':' (such as "%H%M") the main loop measures the
      first and last two characters, while the placeholder "88", "88" is
      drawn: the two agree only when both of those are "88". */
  lemma SplitsWithoutColon(s: string)
    requires ':' !in s
    ensures SplitForMeasure(s) == (Head2(s), Tail2(s))
    ensures SplitForDraw(s) == ("88", "88")
    ensures SplitForMeasure(s) == SplitForDraw(s) <==> Head2(s) == "88" && Tail2(s) == "88"
  {
    SplitNone(s, ':');
  }

  function TimeWidth(wH: int, wM: int, gap: int, colonW: int): (r: int) {
    wH + gap + colonW + gap + wM
  }

  /** The shrink step: a reservation that would push the time past the right
      edge becomes whatever room the time leaves, and never less than 0. */
  function ShrinkReserved(width: int, leftReserved: int, wTime: int): (r: int)
    ensures wTime <= width ==> r + wTime <= width
    ensures leftReserved >= 0 ==> 0 <= r <= leftReserved
    ensures leftReserved + wTime <= width ==> r == leftReserved
  {
    if leftReserved + wTime > width then Max(0, width - wTime) else leftReserved
  }

  /** The rows of the two colon dots for text of height `h` drawn at row
      `y`, `vgap` rows apart. */
  function ColonDots(y: int, h: int, vgap: int): (t: (int, int))
  {
    var t1 := y + Max(0, (h - 1 - vgap) / 2);
    (t1, Min(y + h - 1, t1 + vgap))
  }

  /** Both dots lie within the text's rows, the upper one first. */
  lemma ColonDotsInside(y: int, h: int, vgap: int)
    requires h >= 1 && vgap >= 0
    ensures var (t1, t2) := ColonDots(y, h, vgap);
            y <= t1 <= t2 <= y + h - 1
  {
  }

  /** When the gap fits in the text height the dots are exactly `vgap` rows
      apart and centred: the rows left above and below differ by at most one. */
  lemma ColonDotsCentred(y: int, h: int, vgap: int)
    requires vgap >= 0 && vgap <= h - 1
    ensures var (t1, t2) := ColonDots(y, h, vgap);
            && t2 - t1 == vgap
            && t1 - y <= (y + h - 1) - t2 <= t1 - y + 1
  {
  }

  /** Where `draw_time_with_custom_colon` puts things: the reservation it
      ended up using, the left column of the hours, of the colon and of the
      minutes, the text row, and the colon's points. */
  datatype TimeDraw = TimeDraw(leftReserved: int, hoursX: int, colonX: int, minutesX: int,
                               y: int, colon: set<Point>)

  /** `draw_time_with_custom_colon` with the measured widths. */
  function LayoutTime(width: int, height: int, wH: int, wM: int, h: int, blink: bool,
                      leftReserved: int, gap: int, colonW: int, colonVgap: int,
                      timeOffset: int): (r: TimeDraw)
    ensures leftReserved >= 0 ==>
              r.hoursX == Max(0, width - TimeWidth(wH, wM, gap, colonW)) + timeOffset
    ensures r.colonX == r.hoursX + wH + gap
    ensures r.minutesX == r.colonX + colonW + gap
    ensures r.minutesX + wM == r.hoursX + TimeWidth(wH, wM, gap, colonW)
    ensures blink <==> r.colon == {}
    ensures h >= 1 && colonVgap >= 0 ==>
              forall p :: p in r.colon ==> p.0 == r.colonX && r.y <= p.1 <= r.y + h - 1
  {
    var wTime := TimeWidth(wH, wM, gap, colonW);
    var reserved := ShrinkReserved(width, leftReserved, wTime);
    var x0 := Max(0, width - (reserved + wTime)) + timeOffset;
    var y := Max(0, (height - h) / 2);
    var cx := x0 + reserved + wH + gap;
    var colon: set<Point> :=
      if blink then {}
      else
        var (t1, t2) := ColonDots(y, h, colonVgap);
        {(cx, t1), (cx, t2)};
    assert h >= 1 && colonVgap >= 0 ==>
             (y <= ColonDots(y, h, colonVgap).0 <= y + h - 1 && y <= ColonDots(y, h, colonVgap).1 <= y + h - 1) by {
      if h >= 1 && colonVgap >= 0 { ColonDotsInside(y, h, colonVgap); }
    }
    TimeDraw(reserved, x0 + reserved, cx, cx + colonW + gap, y, colon)
  }

  /** The layout `draw_time_with_custom_colon` computes for `timestr`, with
      the display library's `textsize` (width, height) passed in. */
  function DrawnLayout(width: int, height: int, timestr: string, textsize: string -> (int, int),
                       blink: bool, leftReserved: int, gap: int, colonW: int, colonVgap: int,
                       timeOffset: int): (r: TimeDraw)
  {
    var (hh, mm) := SplitForDraw(timestr);
    LayoutTime(width, height, textsize(hh).0, textsize(mm).0, textsize(hh).1, blink,
               leftReserved, gap, colonW, colonVgap, timeOffset)
  }

  /** The colon's two `draw.point` calls in column `cx`. */
  method PlotColon(draw: Surface, cx: int, y: int, h: int, colonVgap: int) returns (dots: set<Point>)
    modifies draw
    ensures dots == {(cx, ColonDots(y, h, colonVgap).0), (cx, ColonDots(y, h, colonVgap).1)}
    ensures draw.lit == old(draw.lit) + dots
  {
    var t1 := y + Max(0, (h - 1 - colonVgap) / 2);
    var t2 := Min(y + h - 1, t1 + colonVgap);
    draw.Plot(cx, t1);
    draw.Plot(cx, t2);
    dots := {(cx, t1), (cx, t2)};
  }

  /** `draw_time_with_custom_colon`: the two colon dots are the only points
      it plots itself; the digits go to the display library at the returned
      positions. */
  method DrawTimeWithCustomColon(draw: Surface, width: int, height: int, timestr: string,
                                 textsize: string -> (int, int), blink: bool, leftReserved: int,
                                 gap: int, colonW: int, colonVgap: int, timeOffset: int)
    returns (r: TimeDraw)
    modifies draw
    ensures r == DrawnLayout(width, height, timestr, textsize, blink, leftReserved, gap, colonW,
                             colonVgap, timeOffset)
    ensures draw.lit == old(draw.lit) + r.colon
  {
    var hh, mm;
    if ':' in timestr {
      SplitOnceSpec(timestr, ':');
      hh, mm := SplitOnce(timestr, ':').value.0, SplitOnce(timestr, ':').value.1;
    } else {
      hh, mm := "88", "88";
    }
    assert (hh, mm) == SplitForDraw(timestr);
    var (wH, h) := textsize(hh);
    var (wM, _) := textsize(mm);
    var wTime := wH + gap + colonW + gap + wM;
    var reserved := leftReserved;
    if reserved + wTime > width {
      reserved := Max(0, width - wTime);
    }
    var x0 := Max(0, width - (reserved + wTime)) + timeOffset;
    var y := Max(0, (height - h) / 2);
    var cx := x0 + reserved + wH + gap;
    var dots: set<Point> := {};
    if !blink {
      dots := PlotColon(draw, cx, y, h, colonVgap);
    }
    r := TimeDraw(reserved, x0 + reserved, cx, cx + colonW + gap, y, dots);
    assert reserved == ShrinkReserved(width, leftReserved, wTime);
    assert r == LayoutTime(width, height, wH, wM, h, blink, leftReserved, gap, colonW, colonVgap, timeOffset);
  }

  /** Blinking only takes the two colon dots away; hours, colon column and
      minutes stay where they are. */
  lemma BlinkOnlyHidesColon(width: int, height: int, wH: int, wM: int, h: int,
                            leftReserved: int, gap: int, colonW: int, colonVgap: int,
                            timeOffset: int)
    ensures var on := LayoutTime(width, height, wH, wM, h, false, leftReserved, gap, colonW, colonVgap, timeOffset);
            var off := LayoutTime(width, height, wH, wM, h, true, leftReserved, gap, colonW, colonVgap, timeOffset);
            off == on.(colon := {})
  {
  }

  /** The time never jumps: whatever non-negative width is reserved for the
      temperature, hours, colon and minutes land on the same columns. */
  lemma ReservationDoesNotMoveTime(width: int, height: int, wH: int, wM: int, h: int, blink: bool,
                                   lr1: int, lr2: int, gap: int, colonW: int, colonVgap: int,
                                   timeOffset: int)
    requires lr1 >= 0 && lr2 >= 0
    ensures var a := LayoutTime(width, height, wH, wM, h, blink, lr1, gap, colonW, colonVgap, timeOffset);
            var b := LayoutTime(width, height, wH, wM, h, blink, lr2, gap, colonW, colonVgap, timeOffset);
            a.hoursX == b.hoursX && a.colonX == b.colonX && a.minutesX == b.minutesX && a.colon == b.colon
  {
  }

  /** Without an offset, time that fits ends exactly at the right edge and
      never overlaps the reserved area on the left. */
  lemma RightAligned(width: int, height: int, wH: int, wM: int, h: int, blink: bool,
                     leftReserved: int, gap: int, colonW: int, colonVgap: int)
    requires leftReserved >= 0
    requires TimeWidth(wH, wM, gap, colonW) <= width
    ensures var r := LayoutTime(width, height, wH, wM, h, blink, leftReserved, gap, colonW, colonVgap, 0);
            && r.minutesX + wM == width
            && r.leftReserved <= r.hoursX
            && r.leftReserved + TimeWidth(wH, wM, gap, colonW) <= width
  {
  }

  /** The points of `s`, each moved `d` columns right. */
  function ShiftPoints(s: set<Point>, d: int): (r: set<Point>) {
    set p | p in s :: (p.0 + d, p.1)
  }

  /** The offset moves the whole time, dots included, and nothing else. */
  lemma OffsetShiftsTime(width: int, height: int, wH: int, wM: int, h: int, blink: bool,
                         leftReserved: int, gap: int, colonW: int, colonVgap: int, d: int)
    ensures var a := LayoutTime(width, height, wH, wM, h, blink, leftReserved, gap, colonW, colonVgap, 0);
            var b := LayoutTime(width, height, wH, wM, h, blink, leftReserved, gap, colonW, colonVgap, d);
            && b.hoursX == a.hoursX + d && b.colonX == a.colonX + d && b.minutesX == a.minutesX + d
            && b.y == a.y && b.leftReserved == a.leftReserved
            && b.colon == ShiftPoints(a.colon, d)
  {
    var a := LayoutTime(width, height, wH, wM, h, blink, leftReserved, gap, colonW, colonVgap, 0);
    var b := LayoutTime(width, height, wH, wM, h, blink, leftReserved, gap, colonW, colonVgap, d);
    forall p | p in b.colon
      ensures p in ShiftPoints(a.colon, d)
    {
      assert (p.0 - d, p.1) in a.colon;
    }
  }

  /** Text no taller than the display is centred vertically inside it: the
      margin below is the margin above or one row more. */
  lemma TimeRowFits(width: int, height: int, wH: int, wM: int, h: int, blink: bool,
                    leftReserved: int, gap: int, colonW: int, colonVgap: int, timeOffset: int)
    requires 0 <= h <= height
    ensures var r := LayoutTime(width, height, wH, wM, h, blink, leftReserved, gap, colonW, colonVgap, timeOffset);
            && 0 <= r.y && r.y + h <= height
            && r.y <= height - h - r.y <= r.y + 1
  {
  }
}
