/** One normal frame of the main loop: the temperature widget on the left,
    the time on the right and the seconds bar on the bottom row, and why
    these layers keep out of each other's way. */
module Frame {
  import opened PyText
  import opened Canvas
  import opened Calendar
  import opened Font
  import opened TimeLayout
  import opened SecondsBar
  import opened Temperature

  /** The top row of the temperature widget, `(device.height - 5) // 2`. */
  function TempRow(height: int): (r: int) {
    (height - GlyphHeight) / 2
  }

  /** What the temperature widget lights: nothing unless there is a
      (non-empty) text, else the text in the 3x5 font at column 0. */
  function TempPoints(height: int, tempTxt: Option<string>): (r: set<Point>) {
    if tempTxt.Some? && tempTxt.value != [] then TextPoints(0, TempRow(height), tempTxt.value, 1)
    else {}
  }

  /** `if temp_txt: draw_small35(draw, 0, y0, temp_txt, spacing=1)`. */
  method DrawTempWidget(draw: Surface, height: int, tempTxt: Option<string>)
    modifies draw
    ensures draw.lit == old(draw.lit) + TempPoints(height, tempTxt)
  {
    if tempTxt.Some? && tempTxt.value != [] {
      var y0 := (height - 5) / 2;
      DrawSmall35(draw, 0, y0, tempTxt.value, 1);
    }
  }

  /** What the seconds bar lights when it is enabled. */
  function BarLayer(secondsBar: bool, now: DateTime, width: int, height: int, dotted: bool): (r: set<Point>)
    requires Valid(now)
  {
    if secondsBar then BarPoints(Filled(now, width), height - 1, dotted) else {}
  }

  /** The `with canvas(device) as draw:` block of the main loop. */
  method DrawNormalFrame(draw: Surface, now: DateTime, width: int, height: int, timestr: string,
                         textsize: string -> (int, int), tempTxt: Option<string>,
                         leftReserved: int, blink: bool, colonVgap: int,
                         secondsBar: bool, dotted: bool)
    returns (t: TimeDraw)
    requires Valid(now)
    modifies draw
    ensures t == DrawnLayout(width, height, timestr, textsize, blink, leftReserved, 1, 1, colonVgap, 0)
    ensures draw.lit == old(draw.lit) + TempPoints(height, tempTxt) + t.colon
                        + BarLayer(secondsBar, now, width, height, dotted)
  {
    DrawTempWidget(draw, height, tempTxt);
    t := DrawTimeWithCustomColon(draw, width, height, timestr, textsize, blink, leftReserved,
                                 1, 1, colonVgap, 0);
    if secondsBar {
      DrawSecondsBar(draw, now, width, height - 1, dotted);
    }
  }

  // ---------------------------------------------------------------- layers apart

  /** With the reservation the main loop computes from the time's width, every
      point of the temperature widget lies left of the first column of the
      hours, inside the widget's five rows: the widget and the time never
      overlap, whatever the reading. */
  lemma TempLeftOfTime(width: int, height: int, wH: int, wM: int, h: int, blink: bool,
                       drawTemp: bool, showUnitC: bool, temp: Option<int>, colonVgap: int, p: Point)
    requires p in TempPoints(height, Reserve(width, TimeWidth(wH, wM, 1, 1), drawTemp, showUnitC, temp).text)
    ensures var r := Reserve(width, TimeWidth(wH, wM, 1, 1), drawTemp, showUnitC, temp);
            var t := LayoutTime(width, height, wH, wM, h, blink, r.leftReserved, 1, 1, colonVgap, 0);
            && 0 <= p.0 < r.leftReserved <= t.hoursX
            && TempRow(height) <= p.1 < TempRow(height) + GlyphHeight
  {
    var r := Reserve(width, TimeWidth(wH, wM, 1, 1), drawTemp, showUnitC, temp);
    TextPointsInBox(0, TempRow(height), r.text.value, 1, p);
  }

  /** On a display at least six rows high the widget's rows end above the
      bottom row, where the seconds bar runs. */
  lemma TempAboveBar(height: int, tempTxt: Option<string>, p: Point)
    requires height >= 6
    requires p in TempPoints(height, tempTxt)
    ensures 0 <= p.1 < height - 1
  {
    TextPointsInBox(0, TempRow(height), tempTxt.value, 1, p);
  }

  /** Text shorter than the display keeps its colon dots above the bottom
      row. */
  lemma ColonAboveBar(width: int, height: int, wH: int, wM: int, h: int, blink: bool,
                      leftReserved: int, colonVgap: int, timeOffset: int, p: Point)
    requires 1 <= h < height && colonVgap >= 0
    requires p in LayoutTime(width, height, wH, wM, h, blink, leftReserved, 1, 1, colonVgap, timeOffset).colon
    ensures 0 <= p.1 < height - 1
  {
  }

  /** The bar is the only layer on the bottom row: on a display at least six
      rows high, with text shorter than the display, no point of the bar is
      also lit by the widget or the colon. */
  lemma LayersDisjoint(now: DateTime, width: int, height: int, wH: int, wM: int, h: int,
                       blink: bool, tempTxt: Option<string>, leftReserved: int, colonVgap: int,
                       secondsBar: bool, dotted: bool)
    requires Valid(now) && height >= 6 && 1 <= h < height && colonVgap >= 0
    ensures var t := LayoutTime(width, height, wH, wM, h, blink, leftReserved, 1, 1, colonVgap, 0);
            var bar := BarLayer(secondsBar, now, width, height, dotted);
            bar * TempPoints(height, tempTxt) == {} && bar * t.colon == {}
  {
    var t := LayoutTime(width, height, wH, wM, h, blink, leftReserved, 1, 1, colonVgap, 0);
    var bar := BarLayer(secondsBar, now, width, height, dotted);
    forall p | p in bar
      ensures p !in TempPoints(height, tempTxt) && p !in t.colon
    {
      BarPointsExact(Filled(now, width), height - 1, dotted, p);
      if p in TempPoints(height, tempTxt) {
        TempAboveBar(height, tempTxt, p);
      }
      if p in t.colon {
        ColonAboveBar(width, height, wH, wM, h, blink, leftReserved, colonVgap, 0, p);
      }
    }
  }
}
