/** The seconds progress bar along the bottom row: the number of filled
    columns is the elapsed fraction of the current minute times the display
    width, truncated, and the bar is drawn solid or on even columns only. */
module SecondsBar {
  import opened PyText
  import opened Canvas
  import opened Calendar

  const MicrosPerSecond: int := 1000000
  const MicrosPerMinute: int := 60000000

  /** Python's `int()` of a quotient: truncation toward zero. */
  function TruncDiv(a: int, b: int): (r: int)
    requires b > 0
  {
    if a >= 0 then a / b else -((-a) / b)
  }

  /** Microseconds elapsed in the current minute. */
  function Elapsed(now: DateTime): (r: int) {
    now.second * MicrosPerSecond + now.microsecond
  }

  lemma ElapsedRange(now: DateTime)
    requires Valid(now)
    ensures 0 <= Elapsed(now) < MicrosPerMinute
  {
  }

  lemma MulBelow(e: int, c: int, w: int)
    requires 0 <= e < c && w > 0
    ensures 0 <= e * w < c * w
  {
  }

  lemma MulMonotone(a: int, b: int, w: int)
    requires a <= b && w >= 0
    ensures a * w <= b * w
  {
  }

  lemma DivBelow(a: int, c: int, w: int)
    requires c > 0 && 0 <= a < c * w
    ensures a / c < w
  {
    if a / c >= w {
      MulMonotone(w, a / c, c);
    }
  }

  lemma DivMonotone(a: int, b: int, c: int)
    requires 0 <= a <= b && c > 0
    ensures a / c <= b / c
  {
    if a / c > b / c {
      MulMonotone(b / c + 1, a / c, c);
    }
  }

  /** `filled`: `int((second + microsecond / 10^6) / 60 * width)`, restated on
      integers as (elapsed microseconds * width) / (60 * 10^6). */
  function Filled(now: DateTime, width: int): (f: int)
    requires Valid(now)
    ensures width >= 0 ==> 0 <= f < width || f == width == 0
  {
    var e := Elapsed(now);
    ElapsedRange(now);
    if width > 0 then
      MulBelow(e, MicrosPerMinute, width);
      DivBelow(e * width, MicrosPerMinute, width);
      TruncDiv(e * width, MicrosPerMinute)
    else
      TruncDiv(e * width, MicrosPerMinute)
  }

  /** Later in the same minute never shows fewer filled columns. */
  lemma FilledMonotone(a: DateTime, b: DateTime, width: int)
    requires Valid(a) && Valid(b) && width >= 0
    requires a.second < b.second || (a.second == b.second && a.microsecond <= b.microsecond)
    ensures Filled(a, width) <= Filled(b, width)
  {
    MulMonotone(Elapsed(a), Elapsed(b), width);
    ElapsedRange(a);
    DivMonotone(Elapsed(a) * width, Elapsed(b) * width, MicrosPerMinute);
  }

  /** The bar is empty at the start of a minute, and in its last
      microsecond all but the last column are filled: the bar approaches the
      full width but the last column is never lit. */
  lemma FilledAtMinuteBounds(now: DateTime, width: int)
    requires Valid(now) && 1 <= width <= MicrosPerMinute
    ensures now.second == 0 && now.microsecond == 0 ==> Filled(now, width) == 0
    ensures now.second == 59 && now.microsecond == 999999 ==> Filled(now, width) == width - 1
  {
    if now.second == 59 && now.microsecond == 999999 {
      var a := (MicrosPerMinute - 1) * width;
      assert a == MicrosPerMinute * (width - 1) + (MicrosPerMinute - width);
    }
  }

  // ---------------------------------------------------------------- drawing

  function BarUpTo(n: nat, y: int, dotted: bool): (r: set<Point>) {
    if n == 0 then {}
    else BarUpTo(n - 1, y, dotted) + (if !dotted || (n - 1) % 2 == 0 then {(n - 1, y)} else {})
  }

  /** The points the bar lights on row `y` for `filled` columns
      (`range(filled)` is empty when `filled` is not positive). */
  function BarPoints(filled: int, y: int, dotted: bool): (r: set<Point>) {
    if filled <= 0 then {} else BarUpTo(filled, y, dotted)
  }

  /** One more column adds that column's point, unless dotted mode skips
      it. */
  lemma BarStep(n: nat, y: int, dotted: bool)
    ensures BarPoints(n + 1, y, dotted) ==
            BarPoints(n, y, dotted) + (if !dotted || n % 2 == 0 then {(n, y)} else {})
  {
    assert BarPoints(n + 1, y, dotted) == BarUpTo(n + 1, y, dotted);
    if n == 0 {
      assert BarUpTo(0, y, dotted) == {};
    } else {
      assert BarPoints(n, y, dotted) == BarUpTo(n, y, dotted);
    }
  }

  /** `draw_seconds_bar(draw, now_dt, width, y, dotted)`. */
  method DrawSecondsBar(draw: Surface, now: DateTime, width: int, y: int, dotted: bool)
    requires Valid(now)
    modifies draw
    ensures draw.lit == old(draw.lit) + BarPoints(Filled(now, width), y, dotted)
  {
    var filled := Filled(now, width);
    if dotted {
      var x := 0;
      while x < filled
        invariant 0 <= x && x % 2 == 0
        invariant draw.lit == old(draw.lit) + BarPoints(Min(x, filled), y, dotted)
      {
        BarStep(x, y, dotted);
        BarStep(x + 1, y, dotted);
        draw.Plot(x, y);
        x := x + 2;
      }
    } else {
      var x := 0;
      while x < filled
        invariant 0 <= x
        invariant draw.lit == old(draw.lit) + BarPoints(Min(x, filled), y, dotted)
      {
        BarStep(x, y, dotted);
        draw.Plot(x, y);
        x := x + 1;
      }
    }
  }

  /** Solid mode lights exactly columns 0 .. filled-1 of row `y`; dotted
      mode exactly the even ones among them. */
  lemma {:induction false} BarUpToExact(n: nat, y: int, dotted: bool, p: Point)
    ensures p in BarUpTo(n, y, dotted) <==> p.1 == y && 0 <= p.0 < n && (!dotted || p.0 % 2 == 0)
  {
    if n > 0 {
      BarUpToExact(n - 1, y, dotted, p);
    }
  }

  lemma BarPointsExact(filled: int, y: int, dotted: bool, p: Point)
    ensures p in BarPoints(filled, y, dotted) <==>
              p.1 == y && 0 <= p.0 < filled && (!dotted || p.0 % 2 == 0)
  {
    if filled > 0 {
      BarUpToExact(filled, y, dotted, p);
    }
  }

  /** Within a minute the bar only grows. */
  lemma BarGrows(a: DateTime, b: DateTime, width: int, y: int, dotted: bool)
    requires Valid(a) && Valid(b) && width >= 0
    requires a.second < b.second || (a.second == b.second && a.microsecond <= b.microsecond)
    ensures BarPoints(Filled(a, width), y, dotted) <= BarPoints(Filled(b, width), y, dotted)
  {
    FilledMonotone(a, b, width);
    forall p | p in BarPoints(Filled(a, width), y, dotted)
      ensures p in BarPoints(Filled(b, width), y, dotted)
    {
      BarPointsExact(Filled(a, width), y, dotted, p);
      BarPointsExact(Filled(b, width), y, dotted, p);
    }
  }

  /** Drawn on the bottom row of the display, the bar stays on the display
      and never reaches its last column. */
  lemma BarOnDisplay(now: DateTime, width: int, height: int, dotted: bool, p: Point)
    requires Valid(now) && width >= 1 && height >= 1
    requires p in BarPoints(Filled(now, width), height - 1, dotted)
    ensures OnDisplay(p, width, height) && p.0 < width - 1
  {
    BarPointsExact(Filled(now, width), height - 1, dotted, p);
  }
}
