/** The temperature widget's text and the width reserved for it on the
    left of the display: the clamped reading as decimal text ("--" when
    there is none), with a "C" when it fits, and nothing at all when fewer
    than 3 columns are free. */
module Temperature {
  import opened PyText
  import opened Font

  /** The reading clamped to the range the widget can show. */
  function Clamp(t: int): (c: int)
    ensures -99 <= c <= 199
    ensures -99 <= t <= 199 ==> c == t
    ensures t < -99 ==> c == -99
    ensures t > 199 ==> c == 199
  {
    Max(-99, Min(199, t))
  }

  /** `temp_raw`: "--" without a reading, else the clamped integer. */
  function TempRaw(temp: Option<int>): (r: string) {
    match temp
    case None => "--"
    case Some(t) => IntToString(Clamp(t))
  }

  lemma {:induction false} NatToStringShort(n: nat)
    requires n < 1000
    ensures |NatToString(n)| == if n < 10 then 1 else if n < 100 then 2 else 3
  {
    if n >= 10 {
      NatToStringShort(n / 10);
    }
  }

  /** The decimal text of a natural number is made of 3x5 glyphs. */
  lemma DigitsKnown(m: nat)
    ensures forall k :: 0 <= k < |NatToString(m)| ==> Known(NatToString(m)[k])
  {
    forall k | 0 <= k < |NatToString(m)| ensures Known(NatToString(m)[k]) {
      KnownChars(NatToString(m)[k]);
    }
  }

  /** The text of a clamped reading is one to three glyphs of the 3x5 font. */
  lemma ClampedTextShape(c: int)
    requires -99 <= c <= 199
    ensures 1 <= |IntToString(c)| <= 3
    ensures forall k :: 0 <= k < |IntToString(c)| ==> Known(IntToString(c)[k])
  {
    var m: nat := if c < 0 then -c else c;
    NatToStringShort(m);
    DigitsKnown(m);
    if c < 0 {
      var raw := IntToString(c);
      assert raw == "-" + NatToString(m);
      KnownChars('-');
      forall k | 0 <= k < |raw| ensures Known(raw[k]) {
        if k > 0 { assert raw[k] == NatToString(m)[k - 1]; }
      }
    }
  }

  /** The raw text is one to three characters, every one of them a glyph
      of the 3x5 font, and a reading in it reads back as the clamped value. */
  lemma TempRawShape(temp: Option<int>)
    ensures 1 <= |TempRaw(temp)| <= 3
    ensures forall k :: 0 <= k < |TempRaw(temp)| ==> Known(TempRaw(temp)[k])
    ensures temp.Some? ==> ParseInt(TempRaw(temp)) == Some(Clamp(temp.value))
  {
    if temp.Some? {
      ClampedTextShape(Clamp(temp.value));
      ParseIntToString(Clamp(temp.value));
    } else {
      KnownChars('-');
    }
  }

  /** A text of known glyphs is as wide as its character count says: 4 per
      character less one, and 4 more with the "C". */
  lemma TempWidths(temp: Option<int>)
    ensures TextWidth(TempRaw(temp), 1) == 4 * |TempRaw(temp)| - 1
    ensures TextWidth(TempRaw(temp) + "C", 1) == 4 * |TempRaw(temp)| + 3
  {
    var raw := TempRaw(temp);
    TempRawShape(temp);
    AllKnownWidth(raw, 1);
    var withC := raw + "C";
    KnownChars('C');
    forall k | 0 <= k < |withC|
      ensures Known(withC[k])
    {
      if k < |raw| { assert withC[k] == raw[k]; }
    }
    AllKnownWidth(withC, 1);
  }

  /** What the widget shows and how many columns it reserves. */
  datatype Reservation = Reservation(text: Option<string>, leftReserved: int)

  lemma WidthNonNegative(txt: string)
    ensures TextWidth(txt, 1) >= 0
  {
    WidthUpToMonotone(txt, 0, |txt|, 1);
  }

  /** The reservation block of the main loop, given the display width, the
      time's width, the two toggles and the reading. */
  function Reserve(width: int, wTime: int, drawTemp: bool, showUnitC: bool, temp: Option<int>): (r: Reservation)
    ensures 0 <= r.leftReserved <= Max(0, width - wTime)
    ensures r.text.None? ==> r.leftReserved == 0
    ensures r.text.Some? ==> r.leftReserved == TextWidth(r.text.value, 1)
    ensures r.text.Some? ==> r.text.value in {TempRaw(temp) + "C", TempRaw(temp)}
    ensures !drawTemp || Max(0, width - wTime) < 3 ==> r.text.None?
  {
    var leftAllocMax := Max(0, width - wTime);
    var raw := TempRaw(temp);
    var wNn := TextWidth(raw, 1);
    var wNnC := TextWidth(raw + (if showUnitC then "C" else ""), 1);
    WidthNonNegative(raw);
    WidthNonNegative(raw + "C");
    if drawTemp && leftAllocMax >= 3 then
      if showUnitC && wNnC <= leftAllocMax then
        Reservation(Some(raw + "C"), Min(leftAllocMax, TextWidth(raw + "C", 1)))
      else if wNn <= leftAllocMax then
        Reservation(Some(raw), Min(leftAllocMax, wNn))
      else
        Reservation(None, 0)
    else
      Reservation(None, 0)
  }

  /** Which text is chosen: with the unit when it is enabled and fits,
      otherwise the bare reading when that fits, otherwise nothing. */
  lemma ReserveChoice(width: int, wTime: int, drawTemp: bool, showUnitC: bool, temp: Option<int>)
    requires drawTemp && Max(0, width - wTime) >= 3
    ensures var r := Reserve(width, wTime, drawTemp, showUnitC, temp);
            var room := Max(0, width - wTime);
            var raw := TempRaw(temp);
            && (showUnitC && 4 * |raw| + 3 <= room ==> r.text == Some(raw + "C"))
            && (!(showUnitC && 4 * |raw| + 3 <= room) && 4 * |raw| - 1 <= room ==> r.text == Some(raw))
            && (!(showUnitC && 4 * |raw| + 3 <= room) && 4 * |raw| - 1 > room ==> r.text.None?)
  {
    TempWidths(temp);
  }

  /** The reservation depends on the reading only through its number of
      characters, so the time does not move while the temperature stays in
      the same digit-count bucket. */
  lemma SameLengthSameReservation(width: int, wTime: int, drawTemp: bool, showUnitC: bool,
                                  t1: Option<int>, t2: Option<int>)
    requires |TempRaw(t1)| == |TempRaw(t2)|
    ensures Reserve(width, wTime, drawTemp, showUnitC, t1).leftReserved
            == Reserve(width, wTime, drawTemp, showUnitC, t2).leftReserved
  {
    TempWidths(t1);
    TempWidths(t2);
  }

  /** On a 32-column display with a 17-column time, 42 degrees shows as
      "42C" in 11 columns and a missing reading as "--C" in 11 columns. */
  lemma ReserveExamples()
    ensures Reserve(32, 17, true, true, Some(42)) == Reservation(Some("42C"), 11)
    ensures Reserve(32, 17, true, true, None) == Reservation(Some("--C"), 11)
    ensures Reserve(32, 30, true, true, Some(42)) == Reservation(None, 0)
  {
    assert TempRaw(Some(42)) == "42" && TempRaw(Some(42)) + "C" == "42C";
    assert TempRaw(None) + "C" == "--C";
    TempWidths(Some(42));
    TempWidths(None);
    assert TextWidth("42C", 1) == 11 && TextWidth("--C", 1) == 11;
  }
}
