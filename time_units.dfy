/** Time arithmetic shared by both taggers: Python's `int()` truncation,
    `math.ceil`, seconds to whole milliseconds for saving, the legacy
    "above 1000 means milliseconds" unit inference, and `format_time`. */
module TimeUnits {
  import opened Wrappers
  import opened Strings

  /** Python's `int(x)` on a float: truncation toward zero. */
  function Trunc(x: real): (r: int)
    ensures x >= 0.0 ==> r >= 0 && r as real <= x < r as real + 1.0
    ensures x < 0.0 ==> r <= 0 && r as real - 1.0 < x <= r as real
  {
    if x >= 0.0 then x.Floor else -((-x).Floor)
  }

  /** `math.ceil(x)`. */
  function Ceil(x: real): (r: int)
    ensures r as real - 1.0 < x <= r as real
  {
    -((-x).Floor)
  }

  /** Truncation keeps the order of its arguments. */
  lemma TruncMonotone(a: real, b: real)
    requires a <= b
    ensures Trunc(a) <= Trunc(b)
  {
    if a >= 0.0 {
      assert a.Floor <= b.Floor;
    } else if b < 0.0 {
      assert (-b).Floor <= (-a).Floor;
    }
  }

  /** Seconds to the integer milliseconds written on save: `int(s * 1000)`. */
  function ToMillis(seconds: real): (ms: int)
    ensures seconds >= 0.0 ==> ms >= 0 && ms as real <= seconds * 1000.0 < ms as real + 1.0
  {
    Trunc(seconds * 1000.0)
  }

  /** Saving never swaps the two ends of a segment. */
  lemma ToMillisMonotone(a: real, b: real)
    requires a <= b
    ensures ToMillis(a) <= ToMillis(b)
  {
    TruncMonotone(a * 1000.0, b * 1000.0);
  }

  /** Above this raw value a legacy time is taken to be in milliseconds. */
  const MillisThreshold: real := 1000.0

  /** One value read with the unit inference: `x / 1000 if x > 1000 else x`. */
  function LegacyValueToSeconds(x: real): real {
    if x > MillisThreshold then x / 1000.0 else x
  }

  /** A legacy `{start, end}` pair: the decision is taken on `start` alone
      and applied to both ends. */
  function LegacyPairToSeconds(start: real, end: real): (r: (real, real))
    ensures r.0 == LegacyValueToSeconds(start)
    ensures start > MillisThreshold ==> r.1 * 1000.0 == end
    ensures start <= MillisThreshold ==> r.1 == end
  {
    if start > MillisThreshold then (start / 1000.0, end / 1000.0) else (start, end)
  }

  /** Converting a pair with one decision keeps its order; converting the two
      values separately does not. */
  lemma PairConversionKeepsOrder(start: real, end: real)
    requires start <= end
    ensures LegacyPairToSeconds(start, end).0 <= LegacyPairToSeconds(start, end).1
  {
  }

  lemma PerValueConversionCanInvert()
    ensures LegacyValueToSeconds(800.0) > LegacyValueToSeconds(1500.0)
    ensures LegacyPairToSeconds(800.0, 1500.0) == (800.0, 1500.0)
  {
  }

  // ---------------------------------------------------------------- format_time

  /** The three numbers `format_time` prints. */
  datatype Clock = Clock(minutes: int, seconds: int, millis: int)

  /** tagger_2's arithmetic: `int(s) // 60`, `int(s) % 60`,
      `int((s - int(s)) * 1000)` (Python's `//` and `%` on int floor, as
      Dafny's do for a positive divisor). */
  function ClockOf(s: real): Clock {
    var whole := Trunc(s);
    Clock(whole / 60, whole % 60, Trunc((s - whole as real) * 1000.0))
  }

  /** waveform_tagger's arithmetic: `int(s // 60)`, `int(s % 60)` on the
      float, and the same milliseconds. */
  function ClockOfFloat(s: real): Clock {
    var q := (s / 60.0).Floor;
    Clock(q, Trunc(s - 60.0 * q as real), Trunc((s - Trunc(s) as real) * 1000.0))
  }

  /** For a time (never negative) the clock reads minutes, seconds below 60
      and milliseconds below 1000, and it is the time rounded down to the
      millisecond. */
  lemma ClockReadsTime(s: real)
    requires s >= 0.0
    ensures var c := ClockOf(s);
      0 <= c.minutes && 0 <= c.seconds < 60 && 0 <= c.millis < 1000
      && c.minutes * 60 + c.seconds == s.Floor
      && (c.minutes * 60 + c.seconds) as real + c.millis as real / 1000.0 <= s
      && s < (c.minutes * 60 + c.seconds) as real + (c.millis + 1) as real / 1000.0
  {
    var c := ClockOf(s);
    var f := s.Floor;
    assert Trunc(s) == f;
    var frac := s - f as real;
    assert 0.0 <= frac < 1.0;
    assert c.millis == Trunc(frac * 1000.0);
    assert c.millis as real <= frac * 1000.0 < c.millis as real + 1.0;
  }

  /** The two `format_time` variants agree exactly on the times that are
      not negative and on whole numbers of seconds. On a negative time
      between two whole seconds their seconds differ: tagger_2 truncates
      toward zero first, waveform_tagger floors (-0.5 s reads 0 min 0 s in
      one and -1 min 59 s in the other). */
  lemma ClockVariantsAgree(s: real)
    ensures ClockOfFloat(s) == ClockOf(s) <==> s >= 0.0 || s == s.Floor as real
  {
    var f := s.Floor;
    var q, r := f / 60, f % 60;
    assert f == 60 * q + r && 0 <= r < 60;
    assert q as real * 60.0 <= s < (q + 1) as real * 60.0;
    assert q as real <= s / 60.0 < q as real + 1.0;
    assert (s / 60.0).Floor == q;
    assert r as real <= s - 60.0 * q as real < r as real + 1.0;
    assert ClockOfFloat(s).seconds == r;
    if s >= 0.0 || s == f as real {
      assert Trunc(s) == f;
    } else {
      assert Trunc(s) == f + 1;
      assert ClockOf(s).seconds == (f + 1) % 60 != r;
    }
  }

  /** `format_time(seconds, show_ms)`; `None` prints as zero. */
  function FormatTime(seconds: Option<real>, showMs: bool): string {
    match seconds
    case None => "00:00.000"
    case Some(s) => Render(ClockOf(s), showMs)
  }

  function Render(c: Clock, showMs: bool): string {
    FormatInt(c.minutes, 2) + ":" + FormatInt(c.seconds, 2)
    + (if showMs then "." + FormatInt(c.millis, 3) else "")
  }

  /** Under 100 minutes the display is `MM:SS.mmm`, and reading its three
      fields back gives the time rounded down to the millisecond. */
  lemma FormatTimeReadsBack(s: real)
    requires 0.0 <= s < 6000.0
    ensures var r := FormatTime(Some(s), true);
      |r| == 9 && r[2] == ':' && r[5] == '.'
      && var whole := DecimalValue(r[..2]) * 60 + DecimalValue(r[3..5]);
      whole as real + DecimalValue(r[6..]) as real / 1000.0 <= s
      && s < whole as real + (DecimalValue(r[6..]) + 1) as real / 1000.0
  {
    var c := ClockOf(s);
    ClockReadsTime(s);
    assert c.minutes < 100;
    PaddedRoundTrip(c.minutes, 2);
    PaddedRoundTrip(c.seconds, 2);
    PaddedRoundTrip(c.millis, 3);
    var m, sec, ms := FormatInt(c.minutes, 2), FormatInt(c.seconds, 2), FormatInt(c.millis, 3);
    var r := FormatTime(Some(s), true);
    assert r == m + ":" + sec + "." + ms;
    assert r[..2] == m;
    assert r[3..5] == sec;
    assert r[6..] == ms;
  }
}
