/** The waveform viewport of tagger_2: a window of `view_window` seconds
    starting at `view_start`, moved by the scrollbar, by playback running
    past the right of the window and by jumps to a word's timestamp, and
    the time scale drawn beneath it. */
module Viewport {
  import opened Wrappers
  import opened TimeUnits

  function Max(a: real, b: real): (r: real)
    ensures r >= a && r >= b && (r == a || r == b)
  {
    if a >= b then a else b
  }

  function Min(a: real, b: real): (r: real)
    ensures r <= a && r <= b && (r == a || r == b)
  {
    if a <= b then a else b
  }

  /** The furthest the window can be scrolled: its right edge at the end. */
  function MaxViewStart(duration: real, window: real): real {
    Max(0.0, duration - window)
  }

  /** A view start the scrollbar can reach. */
  predicate InRange(viewStart: real, duration: real, window: real) {
    0.0 <= viewStart <= MaxViewStart(duration, window)
  }

  // ---------------------------------------------------------------- on_waveform_scroll

  /** `view_start` for a scrollbar value between 0 and 100. */
  function ScrollViewStart(value: real, duration: real, window: real): (r: real)
    requires 0.0 <= value <= 100.0
    ensures InRange(r, duration, window)
    ensures value == 0.0 ==> r == 0.0
    ensures value == 100.0 ==> r == MaxViewStart(duration, window)
  {
    value / 100.0 * MaxViewStart(duration, window)
  }

  /** Moving the scrollbar right never moves the view left. */
  lemma ScrollMonotone(a: real, b: real, duration: real, window: real)
    requires 0.0 <= a <= b <= 100.0
    ensures ScrollViewStart(a, duration, window) <= ScrollViewStart(b, duration, window)
  {
    var m := MaxViewStart(duration, window);
    assert (b - a) / 100.0 * m >= 0.0;
  }

  // ---------------------------------------------------------------- the scrollbar write-back

  /** The view start after `plot_waveform`, as written, sets the scrollbar
      to `view_start / audio_duration * 100` and the scale runs its command,
      `on_waveform_scroll`, with that value. The value is the share of the
      whole duration, but the handler reads it as a share of the scrollable
      part, so the view moves left. */
  function ScrollWriteBack(viewStart: real, duration: real, window: real): (r: real)
    requires 0.0 < duration && 0.0 <= window && InRange(viewStart, duration, window)
    ensures InRange(r, duration, window) && r <= viewStart
  {
    var q := viewStart / duration;
    var m := MaxViewStart(duration, window);
    ShareBounds(viewStart, duration);
    assert q * 100.0 / 100.0 == q;
    var r := ScrollViewStart(q * 100.0, duration, window);
    assert r == q * m;
    assert r <= viewStart by {
      assert q * duration == viewStart;
      NonNegativeProduct(q, duration - m);
    }
    r
  }

  /** A part's share of a positive whole is between 0 and 1. */
  lemma ShareBounds(part: real, whole: real)
    requires 0.0 < whole && 0.0 <= part <= whole
    ensures 0.0 <= part / whole <= 1.0 && part / whole * whole == part
  {
  }

  lemma NonNegativeProduct(a: real, b: real)
    requires 0.0 <= a && 0.0 <= b
    ensures 0.0 <= a * b
  {
  }

  /** The view start after `n` nested write-backs: the redraw that each
      scrollbar command runs sets the scrollbar again, and the chain goes
      on until the interpreter's recursion limit stops it. */
  function WriteBacks(viewStart: real, duration: real, window: real, n: nat): (r: real)
    requires 0.0 < duration && 0.0 <= window && InRange(viewStart, duration, window)
    ensures InRange(r, duration, window)
    decreases n
  {
    if n == 0 then viewStart else WriteBacks(ScrollWriteBack(viewStart, duration, window), duration, window, n - 1)
  }

  /** A write-back moves every view that is not at the start: the view
      start is scaled by `(duration - window) / duration`. */
  lemma WriteBackMovesView(viewStart: real, duration: real, window: real)
    requires 0.0 < duration && 0.0 < window && InRange(viewStart, duration, window) && 0.0 < viewStart
    ensures ScrollWriteBack(viewStart, duration, window) * duration == viewStart * (duration - window)
    ensures ScrollWriteBack(viewStart, duration, window) < viewStart
  {
    assert MaxViewStart(duration, window) == duration - window;
    var r := ScrollWriteBack(viewStart, duration, window);
    assert r == viewStart / duration * (duration - window);
    assert viewStart / duration * duration == viewStart;
    assert viewStart * (duration - window) < viewStart * duration;
  }

  /** Nested write-backs never move the view right. */
  lemma {:induction false} WriteBacksNoHigher(viewStart: real, duration: real, window: real, n: nat)
    requires 0.0 < duration && 0.0 <= window && InRange(viewStart, duration, window)
    ensures WriteBacks(viewStart, duration, window, n) <= viewStart
    decreases n
  {
    if n > 0 {
      WriteBacksNoHigher(ScrollWriteBack(viewStart, duration, window), duration, window, n - 1);
    }
  }

  /** With 100 s of audio and a 10 s window, jumping to 50 s moves the view
      to 49 s, which shows 50 s; once two nested write-backs have run (the
      chain runs until the recursion limit), the view starts at 39.69 s at
      the latest and 50 s is out of view. */
  lemma JumpUndoneByWriteBacks()
    ensures JumpViewStart(0.0, 10.0, 100.0, 50.0) == 49.0
    ensures forall n: nat :: n >= 2 ==> WriteBacks(49.0, 100.0, 10.0, n) + 10.0 < 50.0
  {
    assert ScrollWriteBack(49.0, 100.0, 10.0) == 44.1;
    assert ScrollWriteBack(44.1, 100.0, 10.0) == 39.69;
    forall n: nat | n >= 2 ensures WriteBacks(49.0, 100.0, 10.0, n) + 10.0 < 50.0 {
      assert WriteBacks(49.0, 100.0, 10.0, n) == WriteBacks(39.69, 100.0, 10.0, n - 2);
      WriteBacksNoHigher(39.69, 100.0, 10.0, n - 2);
    }
  }

  // ---------------------------------------------------------------- draw_time_scale

  /** `min(view_start + view_window, audio_duration)`. */
  function VisibleEnd(viewStart: real, window: real, duration: real): real {
    Min(viewStart + window, duration)
  }

  /** The spacing of the ticks for a visible span of `visible` seconds. */
  function TickInterval(visible: real): (r: real)
    ensures r == 0.1 || r == 0.5 || r == 1.0 || r == 5.0 || r == 10.0
    ensures visible <= 300.0 ==> visible <= 60.0 * r
  {
    if visible <= 2.0 then 0.1
    else if visible <= 10.0 then 0.5
    else if visible <= 60.0 then 1.0
    else if visible <= 300.0 then 5.0
    else 10.0
  }

  /** A wider view never gets finer ticks. */
  lemma TickIntervalMonotone(a: real, b: real)
    requires a <= b
    ensures TickInterval(a) <= TickInterval(b)
  {
  }

  /** `math.ceil(view_start / tick_interval) * tick_interval`. */
  function FirstTick(viewStart: real, interval: real): (r: real)
    requires interval > 0.0
    ensures viewStart <= r < viewStart + interval
  {
    var k := Ceil(viewStart / interval);
    var q := viewStart / interval;
    ScaleBetween(q, k as real - 1.0, k as real, interval);
    assert q * interval == viewStart;
    assert (k as real - 1.0) * interval < viewStart;
    assert (k as real - 1.0) * interval == k as real * interval - interval;
    k as real * interval
  }

  /** Scaling `lo < q <= hi` by a positive factor. */
  lemma ScaleBetween(q: real, lo: real, hi: real, interval: real)
    requires interval > 0.0 && lo < q <= hi
    ensures lo * interval < q * interval <= hi * interval
  {
    assert (q - lo) * interval > 0.0;
    assert (hi - q) * interval >= 0.0;
  }

  /** The first tick is the least multiple of the interval not before the view start. */
  lemma FirstTickIsLeast(viewStart: real, interval: real, k: int)
    requires interval > 0.0
    requires k as real * interval >= viewStart
    ensures FirstTick(viewStart, interval) <= k as real * interval
  {
    var c := Ceil(viewStart / interval);
    assert viewStart / interval <= k as real;
    assert c <= k;
    assert (k - c) as real * interval >= 0.0;
  }

  /** One tick of the time scale: its time, its column on a canvas of the
      given width, and whether its label shows milliseconds. */
  datatype Tick = Tick(time: real, x: int, showMs: bool) {
    /** The label drawn under the tick. */
    function Text(): string {
      FormatTime(Some(time), showMs)
    }
  }

  /** The spacing the time scale uses for a view. */
  function ScaleInterval(viewStart: real, window: real, duration: real): (r: real)
    ensures r > 0.0
  {
    TickInterval(VisibleEnd(viewStart, window, duration) - viewStart)
  }

  /** Tick `i` of the scale: at `first + i * interval`, inside the view, on
      the canvas, labelled with its time (with milliseconds when the ticks
      are closer than a second). */
  predicate IsTick(tk: Tick, i: int, viewStart: real, window: real, duration: real, width: int) {
    var interval := ScaleInterval(viewStart, window, duration);
    && tk.time == FirstTick(viewStart, interval) + i as real * interval
    && viewStart <= tk.time < VisibleEnd(viewStart, window, duration)
    && 0 <= tk.x < width
    && tk.showMs == (interval < 1.0)
  }

  /** The ticks of the time scale for a view, on a canvas `width` pixels wide
      (none while the canvas is not laid out, width at most 1): every tick
      from the first one on, for as long as it is before the visible end. */
  method TimeScale(viewStart: real, window: real, duration: real, width: int) returns (ticks: seq<Tick>)
    requires viewStart >= 0.0
    ensures width <= 1 ==> ticks == []
    ensures width > 1 ==>
      var interval := ScaleInterval(viewStart, window, duration);
      FirstTick(viewStart, interval) + |ticks| as real * interval >= VisibleEnd(viewStart, window, duration)
    ensures width > 1 ==> forall i :: 0 <= i < |ticks| ==> IsTick(ticks[i], i, viewStart, window, duration, width)
  {
    if width <= 1 {
      return [];
    }
    var visibleEnd := VisibleEnd(viewStart, window, duration);
    var visible := visibleEnd - viewStart;
    var interval := TickInterval(visible);
    var first := FirstTick(viewStart, interval);
    var bound := if first < visibleEnd then Ceil((visibleEnd - first) / interval) else 0;
    ticks := [];
    // `np.arange(first, end, step)` yields `first + n * step` while below `end`
    var n := 0;
    while first + n as real * interval < visibleEnd
      invariant 0 <= n <= bound && |ticks| == n
      invariant forall i :: 0 <= i < n ==> IsTick(ticks[i], i, viewStart, window, duration, width)
      decreases bound - n
    {
      var t := first + n as real * interval;
      TickBeforeBound(first, visibleEnd, interval, n);
      TickInView(viewStart, window, duration, width, n, interval, first, visible);
      var tk := Tick(t, TickColumn(t, viewStart, visible, width), interval < 1.0);
      AppendTick(ticks, tk, viewStart, window, duration, width);
      ticks := ticks + [tk];
      n := n + 1;
    }
  }

  /** Tick n, while before the visible end, is in view and on the canvas. */
  lemma TickInView(viewStart: real, window: real, duration: real, width: int, n: nat,
                   interval: real, first: real, visible: real)
    requires viewStart >= 0.0 && width > 1
    requires visible == VisibleEnd(viewStart, window, duration) - viewStart
    requires interval == TickInterval(visible) && first == FirstTick(viewStart, interval)
    requires first + n as real * interval < viewStart + visible
    ensures viewStart <= first + n as real * interval < viewStart + visible
    ensures var t := first + n as real * interval;
      IsTick(Tick(t, TickColumn(t, viewStart, visible, width), interval < 1.0), n, viewStart, window, duration, width)
  {
    assert n as real * interval >= 0.0;
  }

  /** Appending tick n to ticks 0 .. n - 1. */
  lemma AppendTick(ticks: seq<Tick>, tk: Tick, viewStart: real, window: real, duration: real, width: int)
    requires forall i :: 0 <= i < |ticks| ==> IsTick(ticks[i], i, viewStart, window, duration, width)
    requires IsTick(tk, |ticks|, viewStart, window, duration, width)
    ensures forall i :: 0 <= i < |ticks| + 1 ==> IsTick((ticks + [tk])[i], i, viewStart, window, duration, width)
  {
    forall i | 0 <= i < |ticks| + 1 ensures IsTick((ticks + [tk])[i], i, viewStart, window, duration, width) {
      if i < |ticks| {
        assert (ticks + [tk])[i] == ticks[i];
      }
    }
  }

  /** `int(width * (t - view_start) / visible_duration)` for a tick in view. */
  function TickColumn(t: real, viewStart: real, visible: real, width: int): (x: int)
    requires viewStart <= t < viewStart + visible
    requires width > 1
    ensures 0 <= x < width
  {
    var f := (t - viewStart) / visible;
    assert 0.0 <= f < 1.0;
    assert width as real * f < width as real;
    Trunc(width as real * f)
  }

  /** While tick n is before the visible end, n is below the loop bound. */
  lemma TickBeforeBound(first: real, visibleEnd: real, interval: real, n: nat)
    requires interval > 0.0
    requires first + n as real * interval < visibleEnd
    ensures first < visibleEnd && n < Ceil((visibleEnd - first) / interval)
  {
    assert n as real * interval >= 0.0;
    assert n as real < (visibleEnd - first) / interval;
  }

  // ---------------------------------------------------------------- following the play head

  /** `update_playback_position`: past 90% of the window the view moves so
      the play head sits at 10% of it, without passing the end. */
  function AutoScrollStart(viewStart: real, window: real, duration: real, t: real): (r: real)
    requires 0.0 <= window <= duration
    requires InRange(viewStart, duration, window)
    ensures InRange(r, duration, window)
    ensures viewStart <= t <= duration ==> r <= t <= r + window
    ensures t <= viewStart + window * 0.9 ==> r == viewStart
  {
    if t > viewStart + window * 0.9 then Min(duration - window, t - window * 0.1) else viewStart
  }

  /** `jump_to_timestamp`: a time outside the window brings the window to
      it, with the time at 10% of the window where the ends allow. */
  function JumpViewStart(viewStart: real, window: real, duration: real, t: real): (r: real)
    requires InRange(viewStart, duration, window)
    ensures InRange(r, duration, window)
    ensures 0.0 <= window <= duration && 0.0 <= t <= duration ==> r <= t <= r + window
    ensures viewStart <= t <= viewStart + window ==> r == viewStart
  {
    if t < viewStart || t > viewStart + window then Max(0.0, Min(t - window * 0.1, duration - window))
    else viewStart
  }
}
