/** The two animations the main loop runs between normal frames: the
    minute swipe, which slides the new time in from the right while the
    temperature stays put, and the date marquee, which scrolls a text from
    the right edge until it has left the display on the left. */
module Animation {
  import opened PyText
  import opened Canvas
  import opened TimeLayout
  import opened Frame

  // ---------------------------------------------------------------- minute swipe

  /** One swipe frame: the points plotted directly (temperature widget and
      colon dots) and where the time's digits go. */
  datatype SwipeFrame = SwipeFrame(lit: set<Point>, time: TimeDraw)

  /** The frame drawn with the time shifted `dx` columns to the right; the
      colon never blinks during a swipe. */
  function SwipeFrameAt(width: int, height: int, timestr: string, textsize: string -> (int, int),
                        leftReserved: int, colonVgap: int, tempTxt: Option<string>, dx: int): (r: SwipeFrame)
  {
    var t := DrawnLayout(width, height, timestr, textsize, false, leftReserved, 1, 1, colonVgap, dx);
    SwipeFrame(TempPoints(height, tempTxt) + t.colon, t)
  }

  /** The number of shifted frames: `max(1, swipe_px)`. */
  function SwipeSteps(swipePx: int): (r: int) {
    Max(1, swipePx)
  }

  /** The frames in order: offsets `swipe_px`, ..., 1, 0. */
  function SwipePath(width: int, height: int, timestr: string, textsize: string -> (int, int),
                     leftReserved: int, colonVgap: int, tempTxt: Option<string>, swipePx: int): (r: seq<SwipeFrame>)
  {
    var n := SwipeSteps(swipePx);
    seq(n + 1, k => SwipeFrameAt(width, height, timestr, textsize, leftReserved, colonVgap, tempTxt, n - k))
  }

  /** The body of `minute_swipe`'s loop: one canvas with the temperature
      widget and the time shifted `dx` columns right. */
  method DrawSwipeFrame(width: int, height: int, timestr: string, textsize: string -> (int, int),
                        leftReserved: int, colonVgap: int, tempTxt: Option<string>, dx: int)
    returns (frame: SwipeFrame)
    ensures frame == SwipeFrameAt(width, height, timestr, textsize, leftReserved, colonVgap, tempTxt, dx)
  {
    var draw := new Surface();
    DrawTempWidget(draw, height, tempTxt);
    var t := DrawTimeWithCustomColon(draw, width, height, timestr, textsize, false, leftReserved,
                                     1, 1, colonVgap, dx);
    frame := SwipeFrame(draw.lit, t);
  }

  /** `minute_swipe(...)`, one canvas per frame. */
  method MinuteSwipe(width: int, height: int, timestr: string, textsize: string -> (int, int),
                     leftReserved: int, colonVgap: int, tempTxt: Option<string>, swipePx: int)
    returns (frames: seq<SwipeFrame>)
    ensures frames == SwipePath(width, height, timestr, textsize, leftReserved, colonVgap, tempTxt, swipePx)
  {
    var px := Max(1, swipePx);
    frames := [];
    var dx := px;
    while dx >= 0
      invariant -1 <= dx <= px
      invariant |frames| == px - dx
      invariant forall k :: 0 <= k < |frames| ==>
                  frames[k] == SwipeFrameAt(width, height, timestr, textsize, leftReserved, colonVgap, tempTxt, px - k)
    {
      var frame := DrawSwipeFrame(width, height, timestr, textsize, leftReserved, colonVgap, tempTxt, dx);
      frames := frames + [frame];
      dx := dx - 1;
    }
  }

  lemma SwipePathAt(width: int, height: int, timestr: string, textsize: string -> (int, int),
                    leftReserved: int, colonVgap: int, tempTxt: Option<string>, swipePx: int, j: int)
    requires 0 <= j <= SwipeSteps(swipePx)
    ensures var path := SwipePath(width, height, timestr, textsize, leftReserved, colonVgap, tempTxt, swipePx);
            && |path| == SwipeSteps(swipePx) + 1
            && path[j].time == DrawnLayout(width, height, timestr, textsize, false, leftReserved, 1, 1, colonVgap, SwipeSteps(swipePx) - j)
            && path[j].lit == TempPoints(height, tempTxt) + path[j].time.colon
  {
    var n := SwipeSteps(swipePx);
    var path := SwipePath(width, height, timestr, textsize, leftReserved, colonVgap, tempTxt, swipePx);
    assert path[j] == SwipeFrameAt(width, height, timestr, textsize, leftReserved, colonVgap, tempTxt, n - j);
  }

  /** `b` is the time of `a` moved `d` columns right, colon dots included. */
  predicate Shifted(a: TimeDraw, b: TimeDraw, d: int) {
    && b.hoursX == a.hoursX + d && b.minutesX == a.minutesX + d && b.y == a.y
    && b.colon == ShiftPoints(a.colon, d)
  }

  lemma ShiftedBetween(a: TimeDraw, b: TimeDraw, c: TimeDraw, d1: int, d2: int)
    requires Shifted(a, b, d1) && Shifted(a, c, d2)
    ensures Shifted(b, c, d2 - d1)
  {
    forall p | p in c.colon
      ensures p in ShiftPoints(b.colon, d2 - d1)
    {
      var q :| q in a.colon && p == (q.0 + d2, q.1);
      assert (q.0 + d1, q.1) in b.colon;
    }
  }

  /** Shifting the drawn layout by `d` moves hours, minutes and colon dots
      `d` columns and nothing else. */
  lemma DrawnOffset(width: int, height: int, timestr: string, textsize: string -> (int, int),
                    leftReserved: int, colonVgap: int, d: int)
    ensures Shifted(DrawnLayout(width, height, timestr, textsize, false, leftReserved, 1, 1, colonVgap, 0),
                    DrawnLayout(width, height, timestr, textsize, false, leftReserved, 1, 1, colonVgap, d), d)
  {
    var (hh, mm) := SplitForDraw(timestr);
    OffsetShiftsTime(width, height, textsize(hh).0, textsize(mm).0, textsize(hh).1, false,
                     leftReserved, 1, 1, colonVgap, d);
  }

  /** From one frame of the swipe to the next the time moves exactly one
      column left, colon dots included, and stays on its row. */
  lemma SwipeSlidesIn(width: int, height: int, timestr: string, textsize: string -> (int, int),
                      leftReserved: int, colonVgap: int, tempTxt: Option<string>, swipePx: int, k: int)
    requires 0 <= k < SwipeSteps(swipePx)
    ensures var path := SwipePath(width, height, timestr, textsize, leftReserved, colonVgap, tempTxt, swipePx);
            |path| >= 2 && Shifted(path[k].time, path[k + 1].time, -1)
  {
    var n := SwipeSteps(swipePx);
    SwipePathAt(width, height, timestr, textsize, leftReserved, colonVgap, tempTxt, swipePx, k);
    SwipePathAt(width, height, timestr, textsize, leftReserved, colonVgap, tempTxt, swipePx, k + 1);
    DrawnOffset(width, height, timestr, textsize, leftReserved, colonVgap, n - k);
    DrawnOffset(width, height, timestr, textsize, leftReserved, colonVgap, n - k - 1);
    var path := SwipePath(width, height, timestr, textsize, leftReserved, colonVgap, tempTxt, swipePx);
    ShiftedBetween(DrawnLayout(width, height, timestr, textsize, false, leftReserved, 1, 1, colonVgap, 0),
                   path[k].time, path[k + 1].time, n - k, n - k - 1);
  }

  /** The first frame shows the time `max(1, swipe_px)` columns right of its
      normal place and the last frame at the normal place with the colon on;
      the temperature widget is in every frame, unmoved. */
  lemma SwipeEnds(width: int, height: int, timestr: string, textsize: string -> (int, int),
                  leftReserved: int, colonVgap: int, tempTxt: Option<string>, swipePx: int)
    ensures var path := SwipePath(width, height, timestr, textsize, leftReserved, colonVgap, tempTxt, swipePx);
            var still := DrawnLayout(width, height, timestr, textsize, false, leftReserved, 1, 1, colonVgap, 0);
            && |path| == SwipeSteps(swipePx) + 1
            && Shifted(still, path[0].time, SwipeSteps(swipePx)) && SwipeSteps(swipePx) >= 1
            && path[|path| - 1].time == still
            && (forall j :: 0 <= j < |path| ==> TempPoints(height, tempTxt) <= path[j].lit)
  {
    var n := SwipeSteps(swipePx);
    DrawnOffset(width, height, timestr, textsize, leftReserved, colonVgap, n);
    SwipePathAt(width, height, timestr, textsize, leftReserved, colonVgap, tempTxt, swipePx, 0);
    SwipePathAt(width, height, timestr, textsize, leftReserved, colonVgap, tempTxt, swipePx, n);
    forall j | 0 <= j <= n
      ensures TempPoints(height, tempTxt) <= SwipePath(width, height, timestr, textsize, leftReserved, colonVgap, tempTxt, swipePx)[j].lit
    {
      SwipePathAt(width, height, timestr, textsize, leftReserved, colonVgap, tempTxt, swipePx, j);
    }
  }

  // ---------------------------------------------------------------- marquee

  /** Where frame `k` of the marquee draws the text of height `h`. */
  function MarqueeAt(width: int, height: int, h: int, k: int): (r: Point) {
    (width - k, Max(0, (height - h) / 2))
  }

  /** The positions of all frames: one per column of `width + w + gap`. */
  function MarqueePath(width: int, height: int, w: int, h: int, gap: int): (r: seq<Point>) {
    seq(Max(0, width + w + gap), k => MarqueeAt(width, height, h, k))
  }

  /** `marquee_once_legacy(device, text_ascii, font, speed, gap)`, with the
      text's measured width `w` and height `h`: one position per frame. */
  method MarqueeOnce(width: int, height: int, w: int, h: int, gap: int) returns (positions: seq<Point>)
    ensures positions == MarqueePath(width, height, w, h, gap)
  {
    var total := width + w + gap;
    positions := [];
    var offset := 0;
    while offset < total
      invariant 0 <= offset
      invariant offset <= total || offset == 0
      invariant positions == seq(offset, k => MarqueeAt(width, height, h, k))
    {
      var x := width - offset;
      var y := Max(0, (height - h) / 2);
      positions := positions + [(x, y)];
      offset := offset + 1;
    }
  }

  /** The text enters at the right edge, moves one column left per frame at
      a fixed row, and with a gap of at least one column has left the
      display entirely by the last frame. */
  lemma MarqueeEnds(width: int, height: int, w: int, h: int, gap: int)
    requires width >= 0 && w >= 0 && gap >= 1
    ensures var path := MarqueePath(width, height, w, h, gap);
            && |path| == width + w + gap
            && path[0].0 == width
            && path[|path| - 1].0 + w <= 0
            && (forall k :: 0 < k < |path| ==> path[k].0 == path[k - 1].0 - 1 && path[k].1 == path[0].1)
  {
  }

  /** Each column of the text passes over each column of the display in some
      frame: nothing of the text is skipped. */
  lemma MarqueeShowsEverything(width: int, height: int, w: int, h: int, gap: int, c: int, col: int)
    requires gap >= 0 && 0 <= c < w && 0 <= col < width
    ensures var path := MarqueePath(width, height, w, h, gap);
            exists k :: 0 <= k < |path| && path[k].0 + c == col
  {
    var path := MarqueePath(width, height, w, h, gap);
    var k := width + c - col;
    assert path[k].0 + c == col;
  }

  /** Text no taller than the display is centred vertically: the margin
      below is the margin above or one row more. */
  lemma MarqueeCentred(width: int, height: int, w: int, h: int, gap: int, k: int)
    requires 0 <= h <= height && 0 <= k < |MarqueePath(width, height, w, h, gap)|
    ensures var y := MarqueePath(width, height, w, h, gap)[k].1;
            && 0 <= y && y + h <= height
            && y <= height - h - y <= y + 1
  {
  }
}
