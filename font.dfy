/** The tiny 3x5 bitmap font used for the temperature: `DIGITS_3x5`, the
    width computation `small35_text_size` and the rasteriser
    `draw_small35`. */
module Font {
  import opened Canvas

  /** Five rows of three cells; '1' is a lit cell. */
  type Glyph = seq<string>

  const Digits3x5: map<char, Glyph> := map[
    '0' := ["111", "101", "101", "101", "111"],
    '1' := ["010", "110", "010", "010", "111"],
    '2' := ["111", "001", "111", "100", "111"],
    '3' := ["111", "001", "111", "001", "111"],
    '4' := ["101", "101", "111", "001", "001"],
    '5' := ["111", "100", "111", "001", "111"],
    '6' := ["111", "100", "111", "101", "111"],
    '7' := ["111", "001", "010", "100", "100"],
    '8' := ["111", "101", "111", "101", "111"],
    '9' := ["111", "101", "111", "001", "111"],
    '-' := ["000", "000", "111", "000", "000"],
    'C' := ["111", "100", "100", "100", "111"]
  ]

  const GlyphWidth: int := 3
  const GlyphHeight: int := 5

  /** Characters the font can draw; all others are skipped. */
  predicate Known(c: char) {
    c in Digits3x5
  }

  /** Five rows of three cells, each cell '0' or '1'. */
  predicate WellFormedGlyph(g: Glyph) {
    && |g| == GlyphHeight
    && (forall r :: 0 <= r < |g| ==> |g[r]| == GlyphWidth)
    && (forall r, c :: 0 <= r < |g| && 0 <= c < |g[r]| ==> g[r][c] in "01")
  }

  lemma KnownChars(c: char)
    ensures Known(c) <==> c in "0123456789-C"
  {
    assert Digits3x5.Keys == {'0', '1', '2', '3', '4', '5', '6', '7', '8', '9', '-', 'C'};
  }

  lemma GlyphTableWellFormed(c: char)
    requires Known(c)
    ensures WellFormedGlyph(Digits3x5[c])
  {
  }

  // ---------------------------------------------------------------- width

  /** How far the cursor moves past character `i`: a known glyph moves it 3
      columns plus the spacing, except that no spacing follows whatever sits
      at the last index of the string (known or not). */
  function Advance(txt: string, i: int, spacing: int): (r: int)
    requires 0 <= i < |txt|
  {
    if Known(txt[i]) then 3 + (if i != |txt| - 1 then spacing else 0) else 0
  }

  /** The cursor offset after the first `n` characters. */
  function WidthUpTo(txt: string, n: int, spacing: int): (r: int)
    requires 0 <= n <= |txt|
  {
    if n == 0 then 0 else WidthUpTo(txt, n - 1, spacing) + Advance(txt, n - 1, spacing)
  }

  function TextWidth(txt: string, spacing: int): (r: int) {
    WidthUpTo(txt, |txt|, spacing)
  }

  function KnownCount(s: string): (r: nat) {
    if s == [] then 0 else (if Known(s[0]) then 1 else 0) + KnownCount(s[1..])
  }

  /** `small35_text_size(txt, spacing)`: the running width `w` and the
      constant height 5. */
  method Small35TextSize(txt: string, spacing: int) returns (w: int, h: int)
    ensures w == TextWidth(txt, spacing)
    ensures h == GlyphHeight
  {
    w := 0;
    var i := 0;
    while i < |txt|
      invariant 0 <= i <= |txt|
      invariant w == WidthUpTo(txt, i, spacing)
    {
      if txt[i] in Digits3x5 {
        w := w + 3;
        if i != |txt| - 1 {
          w := w + spacing;
        }
      }
      i := i + 1;
    }
    h := 5;
  }

  lemma {:induction false} KnownCountConcat(a: string, b: string)
    ensures KnownCount(a + b) == KnownCount(a) + KnownCount(b)
  {
    if a == [] {
      assert a + b == b;
    } else {
      KnownCountConcat(a[1..], b);
      assert (a + b)[1..] == a[1..] + b;
    }
  }

  lemma KnownCountStep(txt: string, n: int)
    requires 0 <= n < |txt|
    ensures KnownCount(txt[..n + 1]) == KnownCount(txt[..n]) + (if Known(txt[n]) then 1 else 0)
  {
    assert txt[..n + 1] == txt[..n] + [txt[n]];
    KnownCountConcat(txt[..n], [txt[n]]);
  }

  /** Before the last index every known glyph costs 3 + spacing. */
  lemma {:induction false} WidthUpToBeforeLast(txt: string, n: int, spacing: int)
    requires 0 <= n < |txt|
    ensures WidthUpTo(txt, n, spacing) == (3 + spacing) * KnownCount(txt[..n])
  {
    if n > 0 {
      WidthUpToBeforeLast(txt, n - 1, spacing);
      KnownCountStep(txt, n - 1);
      var k := KnownCount(txt[..n - 1]);
      assert WidthUpTo(txt, n, spacing) == (3 + spacing) * k + Advance(txt, n - 1, spacing);
      if Known(txt[n - 1]) {
        assert Advance(txt, n - 1, spacing) == 3 + spacing;
        MulSucc(3 + spacing, k);
      }
    }
  }

  lemma MulSucc(a: int, k: int)
    ensures a * (k + 1) == a * k + a
  {
  }

  /** Closed form of the width: 3 per known glyph, plus one spacing for
      each known glyph that is not at the last index. Unknown characters add
      nothing and the empty string is 0 wide. */
  lemma {:induction false} TextWidthClosedForm(txt: string, spacing: int)
    ensures var k := KnownCount(txt);
            var last := if |txt| > 0 && Known(txt[|txt| - 1]) then 1 else 0;
            TextWidth(txt, spacing) == 3 * k + spacing * (k - last)
  {
    if |txt| > 0 {
      var n := |txt| - 1;
      var k0 := KnownCount(txt[..n]);
      var b := if Known(txt[n]) then 1 else 0;
      assert TextWidth(txt, spacing) == (3 + spacing) * k0 + 3 * b by {
        WidthUpToBeforeLast(txt, n, spacing);
      }
      assert KnownCount(txt) == k0 + b by {
        KnownCountStep(txt, n);
        assert txt[..n + 1] == txt;
      }
      ClosedFormArith(TextWidth(txt, spacing), k0, b, spacing);
    }
  }

  lemma ClosedFormArith(w: int, k0: int, b: int, spacing: int)
    requires w == (3 + spacing) * k0 + 3 * b
    ensures w == 3 * (k0 + b) + spacing * (k0 + b - b)
  {
  }

  /** Text made only of known glyphs (such as a temperature) is 3 columns
      per glyph with one spacing between neighbours. */
  lemma AllKnownWidth(txt: string, spacing: int)
    requires |txt| > 0
    requires forall k :: 0 <= k < |txt| ==> Known(txt[k])
    ensures TextWidth(txt, spacing) == 3 * |txt| + spacing * (|txt| - 1)
  {
    AllKnownCount(txt);
    TextWidthClosedForm(txt, spacing);
  }

  lemma {:induction false} AllKnownCount(txt: string)
    requires forall k :: 0 <= k < |txt| ==> Known(txt[k])
    ensures KnownCount(txt) == |txt|
  {
    if txt != [] {
      AllKnownCount(txt[1..]);
    }
  }

  /** Removing an unknown character that is not the last one changes
      nothing in the width. */
  lemma DropUnknownWidth(txt: string, i: int, spacing: int)
    requires 0 <= i < |txt| - 1 && !Known(txt[i])
    ensures TextWidth(txt[..i] + txt[i + 1..], spacing) == TextWidth(txt, spacing)
  {
    var t := txt[..i] + txt[i + 1..];
    assert txt == txt[..i] + [txt[i]] + txt[i + 1..];
    KnownCountConcat(txt[..i], txt[i + 1..]);
    KnownCountConcat(txt[..i] + [txt[i]], txt[i + 1..]);
    KnownCountConcat(txt[..i], [txt[i]]);
    assert t[|t| - 1] == txt[|txt| - 1];
    TextWidthClosedForm(t, spacing);
    TextWidthClosedForm(txt, spacing);
  }

  /** Spacing is decided by string index: a glyph followed only by an
      unknown character still gets its spacing. */
  lemma SpacingByIndex()
    ensures TextWidth("5", 1) == 3
    ensures TextWidth("5?", 1) == 4
    ensures TextWidth("?5", 1) == 3
    ensures TextWidth("42C", 1) == 11
    ensures TextWidth("--", 1) == 7
  {
    assert !Known('?') by { KnownChars('?'); }
    assert Advance("5?", 0, 1) == 4 && Advance("5?", 1, 1) == 0;
    assert WidthUpTo("5?", 1, 1) == 4;
    assert Advance("?5", 0, 1) == 0 && Advance("?5", 1, 1) == 3;
    assert WidthUpTo("?5", 1, 1) == 0;
  }

  /** With non-negative spacing the cursor never moves backwards. */
  lemma {:induction false} WidthUpToMonotone(txt: string, m: int, n: int, spacing: int)
    requires 0 <= m <= n <= |txt| && spacing >= 0
    ensures WidthUpTo(txt, m, spacing) <= WidthUpTo(txt, n, spacing)
  {
    if m < n {
      WidthUpToMonotone(txt, m, n - 1, spacing);
    }
  }

  // ---------------------------------------------------------------- drawing

  /** The lit cells among the first `n` of one glyph row, drawn at column
      `cx` of row `cy`. */
  function RowPoints(cx: int, cy: int, row: string, n: int): (r: set<Point>)
    requires 0 <= n <= |row|
  {
    if n == 0 then {}
    else RowPoints(cx, cy, row, n - 1) + (if row[n - 1] == '1' then {(cx + n - 1, cy)} else {})
  }

  /** The lit cells of the first `m` rows of a glyph whose top-left corner
      is (cx, cy). */
  function GlyphRows(cx: int, cy: int, g: Glyph, m: int): (r: set<Point>)
    requires 0 <= m <= |g|
  {
    if m == 0 then {}
    else GlyphRows(cx, cy, g, m - 1) + RowPoints(cx, cy + m - 1, g[m - 1], |g[m - 1]|)
  }

  function GlyphPoints(cx: int, cy: int, g: Glyph): (r: set<Point>) {
    GlyphRows(cx, cy, g, |g|)
  }

  /** What character `i` of the text lights: its glyph at the running
      cursor, or nothing for an unknown character. */
  function GlyphAt(x: int, y: int, txt: string, i: int, spacing: int): (r: set<Point>)
    requires 0 <= i < |txt|
  {
    if Known(txt[i]) then GlyphPoints(x + WidthUpTo(txt, i, spacing), y, Digits3x5[txt[i]]) else {}
  }

  function TextPointsUpTo(x: int, y: int, txt: string, n: int, spacing: int): (r: set<Point>)
    requires 0 <= n <= |txt|
  {
    if n == 0 then {} else TextPointsUpTo(x, y, txt, n - 1, spacing) + GlyphAt(x, y, txt, n - 1, spacing)
  }

  function TextPoints(x: int, y: int, txt: string, spacing: int): (r: set<Point>) {
    TextPointsUpTo(x, y, txt, |txt|, spacing)
  }

  /** `draw_small35(draw, x, y, txt, spacing)`: the nested loops light
      exactly `TextPoints`. */
  method DrawSmall35(draw: Surface, x: int, y: int, txt: string, spacing: int)
    modifies draw
    ensures draw.lit == old(draw.lit) + TextPoints(x, y, txt, spacing)
  {
    var cx := x;
    var i := 0;
    while i < |txt|
      invariant 0 <= i <= |txt|
      invariant cx == x + WidthUpTo(txt, i, spacing)
      invariant draw.lit == old(draw.lit) + TextPointsUpTo(x, y, txt, i, spacing)
    {
      var ch := txt[i];
      if ch in Digits3x5 {
        DrawGlyph(draw, cx, y, Digits3x5[ch]);
        cx := cx + 3;
        if i != |txt| - 1 {
          cx := cx + spacing;
        }
      }
      i := i + 1;
    }
  }

  /** The body of `draw_small35`'s two inner loops: one glyph at (cx, cy). */
  method DrawGlyph(draw: Surface, cx: int, cy: int, glyph: Glyph)
    modifies draw
    ensures draw.lit == old(draw.lit) + GlyphPoints(cx, cy, glyph)
  {
    var ry := 0;
    while ry < |glyph|
      invariant 0 <= ry <= |glyph|
      invariant draw.lit == old(draw.lit) + GlyphRows(cx, cy, glyph, ry)
    {
      var row := glyph[ry];
      var before := draw.lit;
      var rx := 0;
      while rx < |row|
        invariant 0 <= rx <= |row|
        invariant draw.lit == before + RowPoints(cx, cy + ry, row, rx)
      {
        if row[rx] == '1' {
          draw.Plot(cx + rx, cy + ry);
        }
        rx := rx + 1;
      }
      ry := ry + 1;
    }
  }

  /** A row lights exactly its '1' cells. */
  lemma {:induction false} RowPointsExact(cx: int, cy: int, row: string, n: int, p: Point)
    requires 0 <= n <= |row|
    ensures p in RowPoints(cx, cy, row, n) <==>
              p.1 == cy && cx <= p.0 < cx + n && row[p.0 - cx] == '1'
  {
    if n > 0 {
      RowPointsExact(cx, cy, row, n - 1, p);
    }
  }

  lemma {:induction false} GlyphRowsExact(cx: int, cy: int, g: Glyph, m: int, p: Point)
    requires WellFormedGlyph(g) && 0 <= m <= |g|
    ensures p in GlyphRows(cx, cy, g, m) <==>
              cx <= p.0 < cx + GlyphWidth && cy <= p.1 < cy + m && g[p.1 - cy][p.0 - cx] == '1'
  {
    if m > 0 {
      GlyphRowsExact(cx, cy, g, m - 1, p);
      RowPointsExact(cx, cy + m - 1, g[m - 1], |g[m - 1]|, p);
    }
  }

  /** A glyph drawn with its top-left corner at (cx, cy) lights exactly the
      '1' cells of its rows, offset by (cx, cy), and nothing outside its
      3x5 box. */
  lemma GlyphPointsExact(cx: int, cy: int, c: char, p: Point)
    requires Known(c)
    ensures p in GlyphPoints(cx, cy, Digits3x5[c]) <==>
              && cx <= p.0 < cx + GlyphWidth && cy <= p.1 < cy + GlyphHeight
              && Digits3x5[c][p.1 - cy][p.0 - cx] == '1'
  {
    GlyphTableWellFormed(c);
    GlyphRowsExact(cx, cy, Digits3x5[c], GlyphHeight, p);
  }

  /** A point is lit by the text exactly when some character's glyph lights
      it; unknown characters contribute nothing. */
  lemma {:induction false} TextPointsUpToExact(x: int, y: int, txt: string, n: int, spacing: int, p: Point)
    requires 0 <= n <= |txt|
    ensures p in TextPointsUpTo(x, y, txt, n, spacing) <==>
              exists i :: 0 <= i < n && Known(txt[i]) && p in GlyphAt(x, y, txt, i, spacing)
  {
    if n > 0 {
      TextPointsUpToExact(x, y, txt, n - 1, spacing, p);
    }
  }

  lemma TextPointsExact(x: int, y: int, txt: string, spacing: int, p: Point)
    ensures p in TextPoints(x, y, txt, spacing) <==>
              exists i :: 0 <= i < |txt| && Known(txt[i]) && p in GlyphAt(x, y, txt, i, spacing)
  {
    TextPointsUpToExact(x, y, txt, |txt|, spacing, p);
  }

  /** A glyph's points lie in its 3x5 box. */
  lemma GlyphInBox(cx: int, cy: int, c: char, p: Point)
    requires Known(c) && p in GlyphPoints(cx, cy, Digits3x5[c])
    ensures cx <= p.0 < cx + GlyphWidth && cy <= p.1 < cy + GlyphHeight
  {
    GlyphPointsExact(cx, cy, c, p);
  }

  /** A known character's glyph ends within the text's width. */
  lemma GlyphWithinWidth(txt: string, i: int, spacing: int)
    requires spacing >= 0 && 0 <= i < |txt| && Known(txt[i])
    ensures 0 <= WidthUpTo(txt, i, spacing)
    ensures WidthUpTo(txt, i, spacing) + GlyphWidth <= TextWidth(txt, spacing)
  {
    WidthUpToMonotone(txt, 0, i, spacing);
    WidthUpToMonotone(txt, i + 1, |txt|, spacing);
  }

  /** With non-negative spacing every lit point lies in the box
      [x, x + width) x [y, y + 5) that `small35_text_size` reports. */
  lemma TextPointsInBox(x: int, y: int, txt: string, spacing: int, p: Point)
    requires spacing >= 0
    requires p in TextPoints(x, y, txt, spacing)
    ensures x <= p.0 < x + TextWidth(txt, spacing)
    ensures y <= p.1 < y + GlyphHeight
  {
    TextPointsExact(x, y, txt, spacing, p);
    var i :| 0 <= i < |txt| && Known(txt[i]) && p in GlyphAt(x, y, txt, i, spacing);
    GlyphInBox(x + WidthUpTo(txt, i, spacing), y, txt[i], p);
    GlyphWithinWidth(txt, i, spacing);
  }

  /** Text with no known character lights nothing and is 0 wide. */
  lemma {:induction false} NoKnownNothingDrawn(x: int, y: int, txt: string, spacing: int)
    requires forall k :: 0 <= k < |txt| ==> !Known(txt[k])
    ensures TextPoints(x, y, txt, spacing) == {}
    ensures TextWidth(txt, spacing) == 0
  {
    forall p | p in TextPoints(x, y, txt, spacing) ensures false {
      TextPointsExact(x, y, txt, spacing, p);
    }
    NoKnownWidth(txt, |txt|, spacing);
  }

  lemma {:induction false} NoKnownWidth(txt: string, n: int, spacing: int)
    requires 0 <= n <= |txt|
    requires forall k :: 0 <= k < |txt| ==> !Known(txt[k])
    ensures WidthUpTo(txt, n, spacing) == 0
  {
    if n > 0 {
      NoKnownWidth(txt, n - 1, spacing);
    }
  }
}
