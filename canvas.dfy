/** The drawing surface handed out by the display driver's `canvas`
    context: every `draw.point((x, y))` call lights one point. Points are
    recorded as requested; the driver later discards those outside the
    display's rectangle. */
module Canvas {

  type Point = (int, int)

  class Surface {
    var lit: set<Point>

    constructor ()
      ensures lit == {}
    {
      lit := {};
    }

    /** `draw.point((x, y), fill="white")`. */
    method Plot(x: int, y: int)
      modifies this
      ensures lit == old(lit) + {(x, y)}
    {
      lit := lit + {(x, y)};
    }
  }

  /** The points of a surface `width` by `height` that the display shows. */
  predicate OnDisplay(p: Point, width: int, height: int) {
    0 <= p.0 < width && 0 <= p.1 < height
  }
}
