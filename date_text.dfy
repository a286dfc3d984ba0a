/** The English ASCII date shown by the ticker, such as "Sun 10 Aug 2025":
    a weekday abbreviation, the day with two digits, a month abbreviation and
    optionally the year. */
module DateText {
  import opened PyText
  import opened Calendar

  const WdEn: seq<string> := ["Mon", "Tue", "Wed", "Thu", "Fri", "Sat", "Sun"]
  const MoEn: seq<string> := ["Jan", "Feb", "Mar", "Apr", "May", "Jun",
                              "Jul", "Aug", "Sep", "Oct", "Nov", "Dec"]

  /** `format_en_date(dt, with_year)`. */
  function FormatEnDate(dt: DateTime, withYear: bool): (r: string)
    requires Valid(dt)
  {
    var base := WdEn[Weekday(dt) % 7] + " " + Pad2(dt.day) + " " + MoEn[dt.month - 1];
    if withYear then base + " " + IntToString(dt.year) else base
  }

  // ---------------------------------------------------------------- reading back

  /** What a date text names: weekday (0 is Monday), day, month (1 is
      January) and, when present, the year. */
  datatype EnDate = EnDate(weekday: nat, day: nat, month: nat, year: Option<nat>)

  /** The first position of `w` in `names`. */
  function IndexOf(names: seq<string>, w: string): (r: Option<nat>)
    ensures r.Some? ==> r.value < |names| && names[r.value] == w
    ensures r.None? ==> w !in names
  {
    if |names| == 0 then None
    else if names[0] == w then Some(0)
    else
      match IndexOf(names[1..], w)
      case Some(i) => Some(i + 1)
      case None => None
  }

  predicate Distinct(names: seq<string>) {
    forall i, j :: 0 <= i < j < |names| ==> names[i] != names[j]
  }

  lemma {:induction false} IndexOfDistinct(names: seq<string>, i: nat)
    requires Distinct(names) && i < |names|
    ensures IndexOf(names, names[i]) == Some(i)
  {
    if i > 0 {
      assert names[1..][i - 1] == names[i];
      IndexOfDistinct(names[1..], i - 1);
    }
  }

  /** Reads a ticker text back into the date it names; `None` for any text
      `FormatEnDate` cannot produce in shape. */
  function ParseEnDate(s: string): (r: Option<EnDate>) {
    var parts := Split(s, ' ');
    if |parts| != 3 && |parts| != 4 then None
    else
      match (IndexOf(WdEn, parts[0]), ParseDigits(parts[1]), IndexOf(MoEn, parts[2]))
      case (Some(w), Some(d), Some(m)) =>
        if |parts| == 3 then Some(EnDate(w, d, m + 1, None))
        else (
          match ParseDigits(parts[3])
          case Some(y) => Some(EnDate(w, d, m + 1, Some(y)))
          case None => None)
      case _ => None
  }

  lemma NamesShape()
    ensures Distinct(WdEn) && Distinct(MoEn)
    ensures forall i :: 0 <= i < |WdEn| ==> |WdEn[i]| == 3 && ' ' !in WdEn[i]
    ensures forall i :: 0 <= i < |MoEn| ==> |MoEn[i]| == 3 && ' ' !in MoEn[i]
  {
  }

  lemma NoSpaceInDigits(t: string)
    requires forall k :: 0 <= k < |t| ==> IsDigit(t[k])
    ensures ' ' !in t
  {
  }

  lemma Pad2NoSpace(n: nat)
    requires n < 100
    ensures ' ' !in Pad2(n)
  {
    NoSpaceInDigits(Pad2(n));
  }

  lemma YearReads(y: nat)
    ensures ParseDigits(IntToString(y)) == Some(y) && ' ' !in IntToString(y)
  {
    NatToStringValue(y);
    NatToStringShape(y);
    NoSpaceInDigits(NatToString(y));
  }

  lemma SplitDate(wd: string, dd: string, mo: string)
    requires ' ' !in wd && ' ' !in dd && ' ' !in mo
    ensures Split(wd + " " + dd + " " + mo, ' ') == [wd, dd, mo]
  {
    assert wd + " " + dd + " " + mo == wd + [' '] + (dd + [' '] + mo);
    SplitAround(dd, mo, ' ');
    SplitFirst(wd, dd + [' '] + mo, ' ');
  }

  lemma SplitDateYear(wd: string, dd: string, mo: string, yy: string)
    requires ' ' !in wd && ' ' !in dd && ' ' !in mo && ' ' !in yy
    ensures Split(wd + " " + dd + " " + mo + " " + yy, ' ') == [wd, dd, mo, yy]
  {
    assert wd + " " + dd + " " + mo + " " + yy == wd + [' '] + (dd + [' '] + (mo + [' '] + yy));
    SplitAround(mo, yy, ' ');
    SplitFirst(dd, mo + [' '] + yy, ' ');
    SplitFirst(wd, dd + [' '] + (mo + [' '] + yy), ' ');
  }

  lemma ParseOfParts(w: nat, dd: string, d: nat, m: nat, yy: Option<(string, nat)>)
    requires w < 7 && 1 <= m <= 12
    requires ParseDigits(dd) == Some(d) && ' ' !in dd
    requires yy.Some? ==> ParseDigits(yy.value.0) == Some(yy.value.1) && ' ' !in yy.value.0
    ensures var base := WdEn[w] + " " + dd + " " + MoEn[m - 1];
            ParseEnDate(if yy.Some? then base + " " + yy.value.0 else base) ==
            Some(EnDate(w, d, m, if yy.Some? then Some(yy.value.1) else None))
  {
    NamesShape();
    IndexOfDistinct(WdEn, w);
    IndexOfDistinct(MoEn, m - 1);
    if yy.Some? {
      SplitDateYear(WdEn[w], dd, MoEn[m - 1], yy.value.0);
    } else {
      SplitDate(WdEn[w], dd, MoEn[m - 1]);
    }
  }

  /** Round trip: the ticker text names the weekday, day, month and (when
      asked for) the year of the date it was made from. */
  lemma ParseFormat(dt: DateTime, withYear: bool)
    requires Valid(dt)
    ensures ParseEnDate(FormatEnDate(dt, withYear)) ==
            Some(EnDate(Weekday(dt), dt.day, dt.month, if withYear then Some(dt.year) else None))
  {
    var w := Weekday(dt);
    assert w % 7 == w;
    Pad2Reads(dt.day);
    Pad2NoSpace(dt.day);
    YearReads(dt.year);
    var yy: Option<(string, nat)> := if withYear then Some((IntToString(dt.year), dt.year)) else None;
    ParseOfParts(w, Pad2(dt.day), dt.day, dt.month, yy);
    var base := WdEn[w] + " " + Pad2(dt.day) + " " + MoEn[dt.month - 1];
    assert FormatEnDate(dt, withYear) == if yy.Some? then base + " " + yy.value.0 else base;
  }

  /** Dates on different days of the calendar give different ticker texts. */
  lemma FormatInjective(a: DateTime, b: DateTime)
    requires Valid(a) && Valid(b)
    requires (a.year, a.month, a.day) != (b.year, b.month, b.day)
    ensures FormatEnDate(a, true) != FormatEnDate(b, true)
  {
    ParseFormat(a, true);
    ParseFormat(b, true);
  }

  lemma FourDigits(y: nat)
    requires 1000 <= y <= 9999
    ensures |IntToString(y)| == 4
  {
    assert |NatToString(y / 1000)| == 1;
    assert |NatToString(y / 100)| == 2 by {
      assert (y / 100) / 10 == y / 1000;
    }
    assert |NatToString(y / 10)| == 3 by {
      assert (y / 10) / 10 == y / 100;
    }
  }

  /** The text is always 10 characters without the year, and 15 with a
      four-digit year. */
  lemma FormatLength(dt: DateTime, withYear: bool)
    requires Valid(dt)
    ensures !withYear ==> |FormatEnDate(dt, withYear)| == 10
    ensures withYear ==> |FormatEnDate(dt, withYear)| == 11 + |IntToString(dt.year)|
    ensures withYear && dt.year >= 1000 ==> |FormatEnDate(dt, withYear)| == 15
  {
    NamesShape();
    if withYear && dt.year >= 1000 {
      FourDigits(dt.year);
    }
  }

  /** 10 August 2025 reads "Sun 10 Aug 2025", or "Sun 10 Aug" without the year. */
  lemma FormatExample()
    ensures FormatEnDate(DateTime(2025, 8, 10, 12, 0, 0, 0), true) == "Sun 10 Aug 2025"
    ensures FormatEnDate(DateTime(2025, 8, 10, 12, 0, 0, 0), false) == "Sun 10 Aug"
  {
    var dt := DateTime(2025, 8, 10, 12, 0, 0, 0);
    SampleDateIsSunday(dt);
    assert Pad2(10) == "10";
    assert IntToString(2025) == "2025";
  }
}
