/** The main loop of the clock: once per pass it re-checks the brightness
    when the minute changes, runs the hour sparkle and the date ticker when
    they are due, prepares the temperature widget, runs the minute swipe when
    the minute changed, and draws one normal frame.

    The world the loop reads is a sequence of `Tick`s, one per pass: the
    wall-clock time, the two readings of the monotonic clock around the
    ticker, the formatted time string, the rounded temperature reading and
    the `LED_DRAW_TEMP` setting as read on that pass. What the loop does on
    each pass is recorded in a `Pass`. */
module ClockLoop {
  import opened PyText
  import opened Canvas
  import opened Calendar
  import opened Window
  import opened Font
  import opened TimeLayout
  import opened Temperature
  import opened Frame
  import opened Animation
  import opened DateText

  /** The settings `main()` reads once at start-up, with the display's size
      and the two fonts' `textsize`. */
  datatype Config = Config(
    width: int, height: int,
    timeFont: string -> (int, int), tickerFont: string -> (int, int),
    blinkColon: int, colonVgap: int,
    tickerEvery: int, tickerGap: int, tickerWithYear: int,
    showUnitC: int,
    autoDim: bool, dayBrt: int, nightBrt: int, nightFrom: HourMinute, nightTo: HourMinute,
    secondsBar: bool, secondsBarDots: bool,
    sparkleOnHour: bool,
    minuteSwipe: bool, minuteSwipePx: int)

  /** What the loop reads on one pass. `mono` is the monotonic clock at the
      ticker test and `monoAfterTicker` its value once the marquee is over. */
  datatype Tick = Tick(now: DateTime, mono: int, monoAfterTicker: int, timestr: string,
                       temp: Option<int>, drawTemp: bool)

  /** The variables the loop carries from one pass to the next. */
  datatype LoopState = LoopState(currentBrt: int, lastMinuteForDim: int,
                                 lastRenderedMinute: Option<int>, lastTickerTs: int)

  /** What one pass did: the contrast it sent, if any; whether it sparkled;
      the ticker text and the marquee's positions, if it scrolled; the
      temperature reservation; the swipe frames (none when no swipe ran);
      whether the colon blinked; the points of the normal frame and where its
      time went; and the brightness the display has afterwards. */
  datatype Pass = Pass(contrast: Option<int>, sparkle: bool, marquee: Option<(string, seq<Point>)>,
                       reservation: Reservation, swipe: seq<SwipeFrame>, blink: bool,
                       frame: set<Point>, time: TimeDraw, brightness: int)

  // ---------------------------------------------------------------- decisions

  /** The brightness the night window asks for at `now`. */
  function DimTarget(cfg: Config, now: DateTime): (r: int) {
    if InWindow(now, cfg.nightFrom, cfg.nightTo) then cfg.nightBrt else cfg.dayBrt
  }

  predicate OnTheHour(now: DateTime) {
    now.minute == 0 && now.second == 0
  }

  /** The ticker test: at least `ticker_every` since the last scroll, and
      not at second 0 of an hour. */
  predicate TickerDue(cfg: Config, t: Tick, lastTickerTs: int) {
    t.mono - lastTickerTs >= cfg.tickerEvery && !OnTheHour(t.now)
  }

  predicate BlinkOf(cfg: Config, now: DateTime) {
    cfg.blinkColon != 0 && now.second % 2 == 1
  }

  /** `w_time` as the main loop measures it, from its own split of the
      time string. */
  function MeasuredTimeWidth(cfg: Config, s: string): (r: int) {
    var (hh, mm) := SplitForMeasure(s);
    TimeWidth(cfg.timeFont(hh).0, cfg.timeFont(mm).0, 1, 1)
  }

  /** The frame-drawing part of a pass, which depends on its tick alone. */
  predicate Rendered(cfg: Config, t: Tick, p: Pass)
    requires Valid(t.now)
  {
    && p.blink == BlinkOf(cfg, t.now)
    && p.reservation == Reserve(cfg.width, MeasuredTimeWidth(cfg, t.timestr), t.drawTemp,
                                cfg.showUnitC != 0, t.temp)
    && p.time == DrawnLayout(cfg.width, cfg.height, t.timestr, cfg.timeFont, p.blink,
                             p.reservation.leftReserved, 1, 1, cfg.colonVgap, 0)
    && p.frame == TempPoints(cfg.height, p.reservation.text) + p.time.colon
                  + BarLayer(cfg.secondsBar, t.now, cfg.width, cfg.height, cfg.secondsBarDots)
  }

  /** The swipe a pass runs when it runs one. */
  function SwipeOf(cfg: Config, t: Tick, r: Reservation): (frames: seq<SwipeFrame>) {
    SwipePath(cfg.width, cfg.height, t.timestr, cfg.timeFont, r.leftReserved, cfg.colonVgap,
              r.text, cfg.minuteSwipePx)
  }

  /** The ticker text and marquee a pass shows when the ticker is due. */
  function MarqueeOf(cfg: Config, now: DateTime): (r: (string, seq<Point>))
    requires Valid(now)
  {
    var txt := FormatEnDate(now, cfg.tickerWithYear != 0);
    (txt, MarqueePath(cfg.width, cfg.height, cfg.tickerFont(txt).0, cfg.tickerFont(txt).1, cfg.tickerGap))
  }

  // ---------------------------------------------------------------- one pass

  /** The auto-dim block: once per minute, send the window's brightness if
      it differs from the current one. */
  method AutoDim(cfg: Config, now: DateTime, currentBrt: int, lastMinuteForDim: int)
    returns (contrast: Option<int>, brt: int, lastMinute: int)
    ensures var check := cfg.autoDim && now.minute != lastMinuteForDim;
            && brt == (if check then DimTarget(cfg, now) else currentBrt)
            && contrast == (if check && DimTarget(cfg, now) != currentBrt then Some(brt) else None)
            && lastMinute == (if check then now.minute else lastMinuteForDim)
  {
    contrast, brt, lastMinute := None, currentBrt, lastMinuteForDim;
    if cfg.autoDim && now.minute != lastMinute {
      lastMinute := now.minute;
      var target := if InWindow(now, cfg.nightFrom, cfg.nightTo) then cfg.nightBrt else cfg.dayBrt;
      if target != brt {
        contrast := Some(target);
        brt := target;
      }
    }
  }

  /** The ticker block: format the date and scroll it when due. */
  method Ticker(cfg: Config, t: Tick, lastTickerTs: int)
    returns (marquee: Option<(string, seq<Point>)>, ts: int)
    requires Valid(t.now)
    ensures marquee == (if TickerDue(cfg, t, lastTickerTs) then Some(MarqueeOf(cfg, t.now)) else None)
    ensures ts == (if TickerDue(cfg, t, lastTickerTs) then t.monoAfterTicker else lastTickerTs)
  {
    marquee, ts := None, lastTickerTs;
    if t.mono - lastTickerTs >= cfg.tickerEvery && !(t.now.minute == 0 && t.now.second == 0) {
      var txt := FormatEnDate(t.now, cfg.tickerWithYear != 0);
      var (w, h) := cfg.tickerFont(txt);
      var positions := MarqueeOnce(cfg.width, cfg.height, w, h, cfg.tickerGap);
      marquee := Some((txt, positions));
      ts := t.monoAfterTicker;
    }
  }

  /** Measuring the time: split it the main loop's way and add the two
      gaps and the colon. */
  method MeasureTime(cfg: Config, s: string) returns (wTime: int)
    ensures wTime == MeasuredTimeWidth(cfg, s)
  {
    var parts := Split(s, ':');
    var hh, mm;
    if |parts| == 2 {
      hh, mm := parts[0], parts[1];
    } else {
      hh, mm := Head2(s), Tail2(s);
    }
    var (wH, _) := cfg.timeFont(hh);
    var (wM, _) := cfg.timeFont(mm);
    wTime := wH + 1 + 1 + 1 + wM;
  }

  /** The temperature block: measure both candidate texts and keep the one
      that fits. */
  method PrepareTemp(width: int, wTime: int, drawTemp: bool, showUnitC: bool, temp: Option<int>)
    returns (r: Reservation)
    ensures r == Reserve(width, wTime, drawTemp, showUnitC, temp)
  {
    var leftAllocMax := Max(0, width - wTime);
    var tempRaw := TempRaw(temp);
    var wNn, _ := Small35TextSize(tempRaw, 1);
    var wNnC, _ := Small35TextSize(tempRaw + (if showUnitC then "C" else ""), 1);
    var tempTxt: Option<string> := None;
    var leftReserved := 0;
    if drawTemp && leftAllocMax >= 3 {
      if showUnitC && wNnC <= leftAllocMax {
        tempTxt := Some(tempRaw + "C");
      } else if wNn <= leftAllocMax {
        tempTxt := Some(tempRaw);
      }
      TempRawShape(temp);
      if tempTxt.Some? && tempTxt.value != [] {
        var w, _ := Small35TextSize(tempTxt.value, 1);
        leftReserved := Min(leftAllocMax, w);
      }
    }
    r := Reservation(tempTxt, leftReserved);
  }

  /** The minute-swipe block: a swipe with the pass's time and reservation
      when the minute differs from the last one rendered. */
  method SwipeOnNewMinute(cfg: Config, t: Tick, res: Reservation, lastRenderedMinute: Option<int>)
    returns (swipe: seq<SwipeFrame>, lastRendered: Option<int>)
    ensures var due := cfg.minuteSwipe && (lastRenderedMinute.None? || t.now.minute != lastRenderedMinute.value);
            && swipe == (if due then SwipeOf(cfg, t, res) else [])
            && lastRendered == (if due then Some(t.now.minute) else lastRenderedMinute)
  {
    swipe := [];
    lastRendered := lastRenderedMinute;
    if cfg.minuteSwipe && (lastRendered.None? || t.now.minute != lastRendered.value) {
      swipe := MinuteSwipe(cfg.width, cfg.height, t.timestr, cfg.timeFont, res.leftReserved, cfg.colonVgap,
                           res.text, cfg.minuteSwipePx);
      lastRendered := Some(t.now.minute);
    }
  }

  /** The part of a pass after the ticker: the time's measured width, the
      temperature reservation, the swipe on a new minute and the normal
      frame, completed into the pass's record. */
  method FinishPass(cfg: Config, t: Tick, lastRenderedMinute: Option<int>,
                    contrast: Option<int>, sparkle: bool, marquee: Option<(string, seq<Point>)>,
                    brightness: int)
    returns (pass: Pass, lastRendered: Option<int>)
    requires Valid(t.now)
    ensures pass.contrast == contrast && pass.sparkle == sparkle
    ensures pass.marquee == marquee && pass.brightness == brightness
    ensures var swipe := cfg.minuteSwipe && (lastRenderedMinute.None? || t.now.minute != lastRenderedMinute.value);
            && pass.swipe == (if swipe then SwipeOf(cfg, t, pass.reservation) else [])
            && lastRendered == (if swipe then Some(t.now.minute) else lastRenderedMinute)
    ensures Rendered(cfg, t, pass)
  {
    var now := t.now;
    var s := t.timestr;
    var blink := cfg.blinkColon != 0 && now.second % 2 == 1;
    var wTime := MeasureTime(cfg, s);
    var res := PrepareTemp(cfg.width, wTime, t.drawTemp, cfg.showUnitC != 0, t.temp);
    var swipe;
    swipe, lastRendered := SwipeOnNewMinute(cfg, t, res, lastRenderedMinute);
    var frame, time := NormalFrame(cfg, now, s, res, blink);
    pass := Pass(contrast, sparkle, marquee, res, swipe, blink, frame, time, brightness);
  }

  /** One pass of `while not stop:`. */
  method Step(cfg: Config, st: LoopState, t: Tick) returns (st2: LoopState, pass: Pass)
    requires Valid(t.now)
    ensures var check := cfg.autoDim && t.now.minute != st.lastMinuteForDim;
            && pass.brightness == st2.currentBrt == (if check then DimTarget(cfg, t.now) else st.currentBrt)
            && pass.contrast == (if check && DimTarget(cfg, t.now) != st.currentBrt then Some(pass.brightness) else None)
            && st2.lastMinuteForDim == (if check then t.now.minute else st.lastMinuteForDim)
    ensures pass.sparkle == (cfg.sparkleOnHour && OnTheHour(t.now))
    ensures pass.marquee == (if TickerDue(cfg, t, st.lastTickerTs) then Some(MarqueeOf(cfg, t.now)) else None)
    ensures st2.lastTickerTs == (if TickerDue(cfg, t, st.lastTickerTs) then t.monoAfterTicker else st.lastTickerTs)
    ensures var swipe := cfg.minuteSwipe && (st.lastRenderedMinute.None? || t.now.minute != st.lastRenderedMinute.value);
            && pass.swipe == (if swipe then SwipeOf(cfg, t, pass.reservation) else [])
            && st2.lastRenderedMinute == (if swipe then Some(t.now.minute) else st.lastRenderedMinute)
    ensures Rendered(cfg, t, pass)
  {
    var now := t.now;
    var contrast, currentBrt, lastMinuteForDim := AutoDim(cfg, now, st.currentBrt, st.lastMinuteForDim);
    var sparkle := cfg.sparkleOnHour && now.minute == 0 && now.second == 0;
    var marquee, lastTickerTs := Ticker(cfg, t, st.lastTickerTs);
    var lastRendered;
    pass, lastRendered := FinishPass(cfg, t, st.lastRenderedMinute, contrast, sparkle, marquee, currentBrt);
    st2 := LoopState(currentBrt, lastMinuteForDim, lastRendered, lastTickerTs);
  }

  /** The normal frame of a pass, on a fresh canvas. */
  method NormalFrame(cfg: Config, now: DateTime, s: string, res: Reservation, blink: bool)
    returns (frame: set<Point>, time: TimeDraw)
    requires Valid(now)
    ensures time == DrawnLayout(cfg.width, cfg.height, s, cfg.timeFont, blink,
                                res.leftReserved, 1, 1, cfg.colonVgap, 0)
    ensures frame == TempPoints(cfg.height, res.text) + time.colon
                     + BarLayer(cfg.secondsBar, now, cfg.width, cfg.height, cfg.secondsBarDots)
  {
    var draw := new Surface();
    time := DrawNormalFrame(draw, now, cfg.width, cfg.height, s, cfg.timeFont, res.text,
                            res.leftReserved, blink, cfg.colonVgap, cfg.secondsBar, cfg.secondsBarDots);
    frame := draw.lit;
  }

  // ---------------------------------------------------------------- the loop

  /** The minute changed at pass `k` (the first pass always counts). */
  predicate MinuteChanged(ticks: seq<Tick>, k: int)
    requires 0 <= k < |ticks|
  {
    k == 0 || ticks[k].now.minute != ticks[k - 1].now.minute
  }

  /** When the last scroll ended, as the loop's `last_ticker_ts` after the
      given passes. */
  function TickerBase(cfg: Config, startMono: int, ticks: seq<Tick>): (r: int) {
    if ticks == [] then startMono
    else
      var base := TickerBase(cfg, startMono, ticks[..|ticks| - 1]);
      if TickerDue(cfg, ticks[|ticks| - 1], base) then ticks[|ticks| - 1].monoAfterTicker else base
  }

  /** No two consecutive passes show the same minute of different hours,
      which holds whenever passes are less than an hour apart. */
  predicate NoHourJump(ticks: seq<Tick>) {
    forall k :: 0 < k < |ticks| && ticks[k].now.minute == ticks[k - 1].now.minute ==>
                  ticks[k].now.hour == ticks[k - 1].now.hour
  }

  /** The brightness the display had before pass `k`. */
  function BrightnessBefore(initial: int, passes: seq<Pass>, k: int): (r: int)
    requires 0 <= k <= |passes|
  {
    if k == 0 then initial else passes[k - 1].brightness
  }

  /** What pass `k` of the loop did, given the ones before it.

      Brightness changes only by a contrast command, which is sent only on a
      changed minute, only with the auto-dim switch on, and only with the
      window's brightness when that differs from the current one; on a
      changed minute the brightness is the window's. The swipe runs exactly
      on the passes where the minute changed. The ticker scrolls when its
      interval has passed since the last scroll ended, and never at second 0
      of an hour. The frame is drawn from this pass's tick alone. */
  predicate PassOk(cfg: Config, initial: int, startMono: int, ticks: seq<Tick>, passes: seq<Pass>, k: int)
    requires 0 <= k < |ticks| && k < |passes| && Valid(ticks[k].now)
  {
    var p := passes[k];
    && p.brightness == (if p.contrast.Some? then p.contrast.value else BrightnessBefore(initial, passes, k))
    && (p.contrast.Some? ==>
          && cfg.autoDim && MinuteChanged(ticks, k)
          && p.contrast.value == DimTarget(cfg, ticks[k].now)
          && p.contrast.value != BrightnessBefore(initial, passes, k))
    && (cfg.autoDim && MinuteChanged(ticks, k) ==> p.brightness == DimTarget(cfg, ticks[k].now))
    && p.swipe == (if cfg.minuteSwipe && MinuteChanged(ticks, k) then SwipeOf(cfg, ticks[k], p.reservation) else [])
    && p.sparkle == (cfg.sparkleOnHour && OnTheHour(ticks[k].now))
    && p.marquee == (if TickerDue(cfg, ticks[k], TickerBase(cfg, startMono, ticks[..k]))
                     then Some(MarqueeOf(cfg, ticks[k].now)) else None)
    && Rendered(cfg, ticks[k], p)
  }

  /** A pass's record stays valid when later passes are appended. */
  lemma PassOkAppend(cfg: Config, initial: int, startMono: int, ticks: seq<Tick>,
                     passes: seq<Pass>, pass: Pass, k: int)
    requires 0 <= k < |ticks| && k < |passes| && Valid(ticks[k].now)
    requires PassOk(cfg, initial, startMono, ticks, passes, k)
    ensures PassOk(cfg, initial, startMono, ticks, passes + [pass], k)
  {
    var more := passes + [pass];
    assert more[k] == passes[k];
    assert BrightnessBefore(initial, more, k) == BrightnessBefore(initial, passes, k);
  }

  /** The loop's variables before pass `i`. */
  predicate StateBefore(cfg: Config, initial: int, startMono: int, ticks: seq<Tick>,
                        passes: seq<Pass>, i: int, st: LoopState)
    requires 0 <= i <= |ticks| && |passes| == i
  {
    && st.currentBrt == BrightnessBefore(initial, passes, i)
    && st.lastMinuteForDim == (if cfg.autoDim && i > 0 then ticks[i - 1].now.minute else -1)
    && st.lastRenderedMinute == (if cfg.minuteSwipe && i > 0 then Some(ticks[i - 1].now.minute) else None)
    && st.lastTickerTs == TickerBase(cfg, startMono, ticks[..i])
  }

  /** One pass, with the loop's bookkeeping: the pass is recorded as
      `PassOk` and the variables are right for the next pass. */
  method StepPass(cfg: Config, initial: int, startMono: int, ticks: seq<Tick>,
                  passes: seq<Pass>, i: int, st: LoopState)
    returns (st2: LoopState, pass: Pass)
    requires 0 <= i < |ticks| && |passes| == i && Valid(ticks[i].now)
    requires StateBefore(cfg, initial, startMono, ticks, passes, i, st)
    ensures PassOk(cfg, initial, startMono, ticks, passes + [pass], i)
    ensures StateBefore(cfg, initial, startMono, ticks, passes + [pass], i + 1, st2)
  {
    st2, pass := Step(cfg, st, ticks[i]);
    var more := passes + [pass];
    assert more[i] == pass;
    assert ticks[..i + 1][..i] == ticks[..i];
    assert ticks[..i + 1][i] == ticks[i];
  }

  /** Passes `0 .. n-1` are recorded as `PassOk`. */
  predicate AllOk(cfg: Config, initial: int, startMono: int, ticks: seq<Tick>, passes: seq<Pass>, n: int)
    requires 0 <= n <= |ticks| && n <= |passes|
  {
    forall k :: 0 <= k < n ==> Valid(ticks[k].now) && PassOk(cfg, initial, startMono, ticks, passes, k)
  }

  /** Appending pass `n`, recorded as `PassOk`, extends the run's record. */
  lemma AllOkAppend(cfg: Config, initial: int, startMono: int, ticks: seq<Tick>,
                    passes: seq<Pass>, pass: Pass, n: int)
    requires 0 <= n < |ticks| && |passes| == n && Valid(ticks[n].now)
    requires AllOk(cfg, initial, startMono, ticks, passes, n)
    requires PassOk(cfg, initial, startMono, ticks, passes + [pass], n)
    ensures AllOk(cfg, initial, startMono, ticks, passes + [pass], n + 1)
  {
    forall k | 0 <= k < n
      ensures PassOk(cfg, initial, startMono, ticks, passes + [pass], k)
    {
      PassOkAppend(cfg, initial, startMono, ticks, passes, pass, k);
    }
  }

  /** `main()` from the initial brightness to the end of the loop, over the
      passes the ticks describe. */
  method Run(cfg: Config, startNow: DateTime, startMono: int, ticks: seq<Tick>)
    returns (initialBrightness: int, passes: seq<Pass>)
    requires Valid(startNow)
    requires forall k :: 0 <= k < |ticks| ==> Valid(ticks[k].now)
    ensures initialBrightness == DimTarget(cfg, startNow)
    ensures |passes| == |ticks|
    ensures forall k :: 0 <= k < |ticks| ==> PassOk(cfg, initialBrightness, startMono, ticks, passes, k)
  {
    initialBrightness := DimTarget(cfg, startNow);
    var st := LoopState(initialBrightness, -1, None, startMono);
    passes := [];
    var i := 0;
    while i < |ticks|
      invariant 0 <= i <= |ticks| && |passes| == i
      invariant StateBefore(cfg, initialBrightness, startMono, ticks, passes, i, st)
      invariant AllOk(cfg, initialBrightness, startMono, ticks, passes, i)
    {
      var st2, pass := StepPass(cfg, initialBrightness, startMono, ticks, passes, i, st);
      AllOkAppend(cfg, initialBrightness, startMono, ticks, passes, pass, i);
      passes := passes + [pass];
      st := st2;
      i := i + 1;
    }
  }

  // ---------------------------------------------------------------- brightness over a run

  /** With auto-dim on and passes less than an hour apart, the display's
      brightness after every pass is the one the night window asks for at
      that pass's time. */
  lemma {:induction false} BrightnessTracksWindow(cfg: Config, initial: int, startMono: int,
                                                  ticks: seq<Tick>, passes: seq<Pass>, n: int)
    requires |passes| == |ticks| && 0 <= n < |ticks|
    requires forall k :: 0 <= k < |ticks| ==> Valid(ticks[k].now)
    requires forall k :: 0 <= k < |ticks| ==> PassOk(cfg, initial, startMono, ticks, passes, k)
    requires cfg.autoDim && NoHourJump(ticks)
    ensures passes[n].brightness == DimTarget(cfg, ticks[n].now)
  {
    assert PassOk(cfg, initial, startMono, ticks, passes, n);
    if !MinuteChanged(ticks, n) {
      BrightnessTracksWindow(cfg, initial, startMono, ticks, passes, n - 1);
      assert ticks[n].now.hour == ticks[n - 1].now.hour;
    }
  }

  /** With auto-dim off the loop never sends a contrast command, and the
      brightness set at start-up stays. */
  lemma {:induction false} NoDimKeepsBrightness(cfg: Config, initial: int, startMono: int,
                                                ticks: seq<Tick>, passes: seq<Pass>, n: int)
    requires |passes| == |ticks| && 0 <= n < |ticks|
    requires forall k :: 0 <= k < |ticks| ==> Valid(ticks[k].now)
    requires forall k :: 0 <= k < |ticks| ==> PassOk(cfg, initial, startMono, ticks, passes, k)
    requires !cfg.autoDim
    ensures passes[n].contrast.None? && passes[n].brightness == initial
  {
    assert PassOk(cfg, initial, startMono, ticks, passes, n);
    if n > 0 {
      NoDimKeepsBrightness(cfg, initial, startMono, ticks, passes, n - 1);
    }
  }

  /** Within one minute at most one contrast command is sent, on its first
      pass. */
  lemma ContrastOncePerMinute(cfg: Config, initial: int, startMono: int,
                              ticks: seq<Tick>, passes: seq<Pass>, k: int)
    requires |passes| == |ticks| && 0 < k < |ticks|
    requires forall j :: 0 <= j < |ticks| ==> Valid(ticks[j].now)
    requires forall j :: 0 <= j < |ticks| ==> PassOk(cfg, initial, startMono, ticks, passes, j)
    requires ticks[k].now.minute == ticks[k - 1].now.minute
    ensures passes[k].contrast.None? && passes[k].brightness == passes[k - 1].brightness
  {
    assert PassOk(cfg, initial, startMono, ticks, passes, k);
  }

  /** The ticker stays out of the sparkle's way: no pass both sparkles and
      scrolls the date, and no scroll starts at second 0 of an hour. */
  lemma SparkleAndTickerApart(cfg: Config, initial: int, startMono: int,
                              ticks: seq<Tick>, passes: seq<Pass>, k: int)
    requires |passes| == |ticks| && 0 <= k < |ticks|
    requires forall j :: 0 <= j < |ticks| ==> Valid(ticks[j].now)
    requires forall j :: 0 <= j < |ticks| ==> PassOk(cfg, initial, startMono, ticks, passes, j)
    ensures !(passes[k].sparkle && passes[k].marquee.Some?)
    ensures passes[k].marquee.Some? ==> !OnTheHour(ticks[k].now)
    ensures passes[k].sparkle <==> cfg.sparkleOnHour && OnTheHour(ticks[k].now)
  {
    assert PassOk(cfg, initial, startMono, ticks, passes, k);
  }

  // ---------------------------------------------------------------- the ticker's rhythm

  /** The monotonic readings never go back: each scroll ends no earlier than
      it started, and each pass reads the clock no earlier than the passes
      before it ended. */
  predicate MonotonicReadings(startMono: int, ticks: seq<Tick>) {
    && (forall k :: 0 <= k < |ticks| ==> ticks[k].mono <= ticks[k].monoAfterTicker)
    && (forall k :: 0 <= k < |ticks| ==> startMono <= ticks[k].mono)
    && (forall j, k :: 0 <= j < k < |ticks| ==> ticks[j].monoAfterTicker <= ticks[k].mono)
  }

  /** The scrolls' end times only move forward: after a scroll at pass `j`,
      the loop's `last_ticker_ts` is never earlier than that scroll's end. */
  lemma {:induction false} TickerBaseAfterScroll(cfg: Config, startMono: int, ticks: seq<Tick>, j: int)
    requires MonotonicReadings(startMono, ticks)
    requires 0 <= j < |ticks| && TickerDue(cfg, ticks[j], TickerBase(cfg, startMono, ticks[..j]))
    ensures TickerBase(cfg, startMono, ticks) >= ticks[j].monoAfterTicker
  {
    var n := |ticks|;
    var prefix := ticks[..n - 1];
    if j == n - 1 {
      assert prefix == ticks[..j];
    } else {
      assert MonotonicReadings(startMono, prefix) by {
        assert forall k :: 0 <= k < |prefix| ==> prefix[k] == ticks[k];
      }
      assert prefix[..j] == ticks[..j];
      TickerBaseAfterScroll(cfg, startMono, prefix, j);
      assert ticks[n - 1].monoAfterTicker >= ticks[n - 1].mono >= ticks[j].monoAfterTicker;
    }
  }

  /** The loop's `last_ticker_ts` never lies before the start. */
  lemma {:induction false} TickerBaseFromStart(cfg: Config, startMono: int, ticks: seq<Tick>)
    requires MonotonicReadings(startMono, ticks)
    ensures TickerBase(cfg, startMono, ticks) >= startMono
  {
    if ticks != [] {
      var prefix := ticks[..|ticks| - 1];
      assert MonotonicReadings(startMono, prefix) by {
        assert forall k :: 0 <= k < |prefix| ==> prefix[k] == ticks[k];
      }
      TickerBaseFromStart(cfg, startMono, prefix);
    }
  }

  /** The date scrolls at most once every `ticker_every`: the first scroll
      comes no sooner than that after start-up, and between the end of one
      scroll and the start of the next there is always at least that much
      time. */
  lemma TickerSpacing(cfg: Config, startMono: int, ticks: seq<Tick>, j: int, k: int)
    requires MonotonicReadings(startMono, ticks)
    requires 0 <= k < |ticks| && TickerDue(cfg, ticks[k], TickerBase(cfg, startMono, ticks[..k]))
    requires 0 <= j < k && TickerDue(cfg, ticks[j], TickerBase(cfg, startMono, ticks[..j]))
    ensures ticks[k].mono - ticks[j].monoAfterTicker >= cfg.tickerEvery
  {
    var prefix := ticks[..k];
    assert MonotonicReadings(startMono, prefix) by {
      assert forall i :: 0 <= i < |prefix| ==> prefix[i] == ticks[i];
    }
    assert prefix[..j] == ticks[..j];
    TickerBaseAfterScroll(cfg, startMono, prefix, j);
  }

  /** The first scroll comes no sooner than `ticker_every` after start-up. */
  lemma TickerFirstWait(cfg: Config, startMono: int, ticks: seq<Tick>, k: int)
    requires MonotonicReadings(startMono, ticks)
    requires 0 <= k < |ticks| && TickerDue(cfg, ticks[k], TickerBase(cfg, startMono, ticks[..k]))
    requires forall j :: 0 <= j < k ==> !TickerDue(cfg, ticks[j], TickerBase(cfg, startMono, ticks[..j]))
    ensures ticks[k].mono - startMono >= cfg.tickerEvery
  {
    var prefix := ticks[..k];
    forall j | 0 <= j < |prefix|
      ensures !TickerDue(cfg, prefix[j], TickerBase(cfg, startMono, prefix[..j]))
    {
      assert prefix[..j] == ticks[..j];
    }
    TickerBaseQuiet(cfg, startMono, prefix);
  }

  /** Without a scroll so far, `last_ticker_ts` is still the start-up time. */
  lemma {:induction false} TickerBaseQuiet(cfg: Config, startMono: int, ticks: seq<Tick>)
    requires forall j :: 0 <= j < |ticks| ==> !TickerDue(cfg, ticks[j], TickerBase(cfg, startMono, ticks[..j]))
    ensures TickerBase(cfg, startMono, ticks) == startMono
  {
    if ticks != [] {
      var prefix := ticks[..|ticks| - 1];
      forall j | 0 <= j < |prefix|
        ensures !TickerDue(cfg, prefix[j], TickerBase(cfg, startMono, prefix[..j]))
      {
        assert prefix[..j] == ticks[..j];
      }
      TickerBaseQuiet(cfg, startMono, prefix);
      assert prefix == ticks[..|ticks| - 1];
    }
  }

  // ---------------------------------------------------------------- widget and time

  /** In a pass whose time text has exactly one ':' (the default "%H:%M")
      the width measured for the reservation is the width drawn, so every
      point of the temperature widget lies left of the hours. */
  lemma PassTempLeftOfTime(cfg: Config, t: Tick, p: Pass, q: Point)
    requires Valid(t.now) && Rendered(cfg, t, p) && Count(t.timestr, ':') == 1
    requires q in TempPoints(cfg.height, p.reservation.text)
    ensures 0 <= q.0 < p.reservation.leftReserved <= p.time.hoursX
    ensures TempRow(cfg.height) <= q.1 < TempRow(cfg.height) + GlyphHeight
  {
    SplitsAgree(t.timestr);
    var (hh, mm) := SplitForDraw(t.timestr);
    TempLeftOfTime(cfg.width, cfg.height, cfg.timeFont(hh).0, cfg.timeFont(mm).0, cfg.timeFont(hh).1,
                   p.blink, t.drawTemp, cfg.showUnitC != 0, t.temp, cfg.colonVgap, q);
  }

  lemma ReserveFortyTwo()
    ensures Reserve(32, 17, true, true, Some(42)) == Reservation(Some("42C"), 11)
  {
    assert IntToString(42) == "42";
    assert TempRaw(Some(42)) == "42";
    var raw, txt := "42", "42C";
    assert raw + "C" == txt;
    KnownChars('4');
    KnownChars('2');
    KnownChars('C');
    assert forall k :: 0 <= k < |txt| ==> Known(txt[k]);
    AllKnownWidth(txt, 1);
    assert TextWidth(txt, 1) == 11;
  }

  lemma WidgetLightsEight(height: int)
    ensures (8, TempRow(height)) in TempPoints(height, Some("42C"))
  {
    var txt, row := "42C", TempRow(height);
    KnownChars('4');
    KnownChars('2');
    KnownChars('C');
    assert WidthUpTo(txt, 2, 1) == 8;
    GlyphPointsExact(8, row, 'C', (8, row));
    assert (8, row) in GlyphAt(0, row, txt, 2, 1);
    TextPointsExact(0, row, txt, 1, (8, row));
  }

  /** With a "%H:%M:%S" text the reservation is computed for the hours and
      the seconds while the hours and "MM:SS" are drawn. On a 32-column
      display where each two-digit piece is 7 columns wide and "MM:SS" is 17,
      42 degrees reserves "42C", 11 columns, while the hours start at column
      5: the 'C' of the widget lights column 8, inside the hours. */
  lemma SecondsFormatOverlap(cfg: Config, t: Tick, p: Pass, hh: string, mm: string, ss: string)
    requires Valid(t.now) && Rendered(cfg, t, p)
    requires ':' !in hh && ':' !in mm && ':' !in ss && |hh| == 2 && |ss| == 2
    requires t.timestr == hh + ":" + mm + ":" + ss
    requires cfg.width == 32
    requires cfg.timeFont(hh).0 == 7 && cfg.timeFont(ss).0 == 7 && cfg.timeFont(mm + ":" + ss).0 == 17
    requires t.drawTemp && cfg.showUnitC != 0 && t.temp == Some(42)
    ensures p.reservation == Reservation(Some("42C"), 11)
    ensures p.time.hoursX == 5
    ensures (8, TempRow(cfg.height)) in p.frame
    ensures p.time.hoursX <= 8 < p.time.hoursX + cfg.timeFont(hh).0
  {
    SplitsDisagreeWithSeconds(hh, mm, ss);
    assert MeasuredTimeWidth(cfg, t.timestr) == 17;
    ReserveFortyTwo();
    WidgetLightsEight(cfg.height);
    var r := p.reservation;
    assert r == Reservation(Some("42C"), 11);
    assert p.time == LayoutTime(32, cfg.height, 7, 17, cfg.timeFont(hh).1, p.blink, 11, 1, 1, cfg.colonVgap, 0);
    assert TempPoints(cfg.height, r.text) <= p.frame;
  }
}
