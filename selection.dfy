/** tagger_2's selection: the two-element list `current_selection`, each
    end optional, moved by the mark buttons and by the mouse on the
    waveform. Each handler is a transition from the old pair to the new. */
module Selection {
  import opened Wrappers

  datatype Sel = Sel(start: Option<real>, end: Option<real>)

  const Cleared: Sel := Sel(None, None)

  predicate Complete(s: Sel) {
    s.start.Some? && s.end.Some?
  }

  /** Both ends set and in order. */
  predicate Ordered(s: Sel) {
    Complete(s) && s.start.value <= s.end.value
  }

  /** A time on the waveform: `event.xdata` is set and within `[0, duration]`. */
  predicate OnWaveform(t: Option<real>, duration: real) {
    t.Some? && 0.0 <= t.value <= duration
  }

  /** `mark_segment_start`: the start becomes the position; an end already
      at or after it is kept, any other end is moved onto it. */
  function MarkStart(s: Sel, pos: real): (r: Sel)
    ensures r.start == Some(pos) && Ordered(r)
    ensures s.end.Some? && s.end.value >= pos ==> r.end == s.end
    ensures r.end != s.end ==> r.end == Some(pos)
  {
    if s.end.None? || s.end.value < pos then Sel(Some(pos), Some(pos)) else Sel(Some(pos), s.end)
  }

  /** `mark_segment_end`: the end becomes the position; a start already at
      or before it is kept, any other start is moved onto it. */
  function MarkEnd(s: Sel, pos: real): (r: Sel)
    ensures r.end == Some(pos) && Ordered(r)
    ensures s.start.Some? && s.start.value <= pos ==> r.start == s.start
    ensures r.start != s.start ==> r.start == Some(pos)
  {
    if s.start.None? || s.start.value > pos then Sel(Some(pos), Some(pos)) else Sel(s.start, Some(pos))
  }

  /** `on_waveform_click`: with shift held and a start set, the click moves
      the end only; otherwise it starts a new, empty selection there. A
      click off the waveform changes nothing. */
  function Click(s: Sel, t: Option<real>, shift: bool, duration: real): (r: Sel)
    ensures !OnWaveform(t, duration) ==> r == s
    ensures OnWaveform(t, duration) ==> r.end == t && r.start.Some?
    ensures OnWaveform(t, duration) && shift && s.start.Some? ==> r.start == s.start
    ensures OnWaveform(t, duration) && !(shift && s.start.Some?) ==> r.start == t
  {
    if !OnWaveform(t, duration) then s
    else if shift && s.start.Some? then Sel(s.start, t)
    else Sel(t, t)
  }

  /** `on_waveform_release`: with a start set, the release time becomes the
      other end and the pair is put in order. */
  function Release(s: Sel, t: Option<real>, duration: real): (r: Sel)
    ensures !(OnWaveform(t, duration) && s.start.Some?) ==> r == s
    ensures OnWaveform(t, duration) && s.start.Some? ==>
      Ordered(r) && multiset{r.start.value, r.end.value} == multiset{s.start.value, t.value}
  {
    if !(OnWaveform(t, duration) && s.start.Some?) then s
    else if s.start.value > t.value then Sel(t, s.start)
    else Sel(s.start, t)
  }

  /** `on_waveform_motion`: while button 1 is held, the end follows the
      pointer, without putting the pair in order. */
  function Drag(s: Sel, t: Option<real>, button: int, duration: real): (r: Sel)
    ensures !(button == 1 && OnWaveform(t, duration) && s.start.Some?) ==> r == s
    ensures button == 1 && OnWaveform(t, duration) && s.start.Some? ==> r.start == s.start && r.end == t
  {
    if button == 1 && OnWaveform(t, duration) && s.start.Some? then Sel(s.start, t) else s
  }

  /** Dragging left of the start leaves an inverted pair until the release
      puts it in order. */
  lemma DragLeavesInvertedUntilRelease()
    ensures var d := Drag(Sel(Some(2.0), Some(2.0)), Some(1.0), 1, 5.0);
      !Ordered(d) && Release(d, Some(1.0), 5.0) == Sel(Some(1.0), Some(2.0))
  {
  }

  /** A shift-click before the start also inverts the pair. */
  lemma ShiftClickCanInvert()
    ensures !Ordered(Click(Sel(Some(2.0), Some(3.0)), Some(1.0), true, 5.0))
  {
  }

  /** The handlers that end a gesture: the two marks and the release. */
  datatype Gesture = MarkStartAt(pos: real) | MarkEndAt(pos: real) | ReleaseAt(t: Option<real>)

  /** Once in order, the pair stays in order through any sequence of marks
      and releases (the click and the drag are what can invert it). */
  lemma {:induction false} GesturesKeepOrder(s: Sel, steps: seq<Gesture>, duration: real)
    requires Ordered(s)
    ensures Ordered(Replay(s, steps, duration))
    decreases |steps|
  {
    if steps != [] {
      GesturesKeepOrder(Step(s, steps[0], duration), steps[1..], duration);
    }
  }

  function Step(s: Sel, g: Gesture, duration: real): Sel {
    match g
    case MarkStartAt(p) => MarkStart(s, p)
    case MarkEndAt(p) => MarkEnd(s, p)
    case ReleaseAt(t) => Release(s, t, duration)
  }

  function Replay(s: Sel, steps: seq<Gesture>, duration: real): Sel
    decreases |steps|
  {
    if steps == [] then s else Replay(Step(s, steps[0], duration), steps[1..], duration)
  }
}

/** waveform_tagger's selection: two optional markers, `segment_start` and
    `segment_end`, set by the sliders and buttons, and the pair
    `current_selection` derived from them. */
module Markers {
  import opened Wrappers

  /** The markers: `segment_start` and `segment_end`. */
  datatype Marks = Marks(start: Option<real>, end: Option<real>)

  /** Both markers set and in order. */
  predicate Consistent(m: Marks) {
    m.start.Some? && m.end.Some? ==> m.start.value <= m.end.value
  }

  /** `update_selection`: with both markers set the selection becomes them
      in order; with either missing the selection is left as it was. */
  function UpdateSelection(m: Marks, current: Option<(real, real)>): (r: Option<(real, real)>)
    ensures m.start.None? || m.end.None? ==> r == current
    ensures m.start.Some? && m.end.Some? ==>
      r.Some? && r.value.0 <= r.value.1
      && multiset{r.value.0, r.value.1} == multiset{m.start.value, m.end.value}
  {
    if m.start.Some? && m.end.Some? then
      if m.start.value > m.end.value then Some((m.end.value, m.start.value))
      else Some((m.start.value, m.end.value))
    else current
  }

  /** `on_start_slider_change(value)`: the start becomes the value, and an
      end before it is raised to it. */
  function StartSliderChange(m: Marks, value: real): (r: Marks)
    ensures r.start == Some(value) && Consistent(r)
    ensures m.end.None? ==> r.end.None?
    ensures m.end.Some? && m.end.value >= value ==> r.end == m.end
    ensures r.end != m.end ==> r.end == Some(value)
  {
    if m.end.Some? && value > m.end.value then Marks(Some(value), Some(value)) else Marks(Some(value), m.end)
  }

  /** `on_end_slider_change(value)`: the end becomes the value, and a start
      after it is lowered to it. */
  function EndSliderChange(m: Marks, value: real): (r: Marks)
    ensures r.end == Some(value) && Consistent(r)
    ensures m.start.None? ==> r.start.None?
    ensures m.start.Some? && m.start.value <= value ==> r.start == m.start
    ensures r.start != m.start ==> r.start == Some(value)
  {
    if m.start.Some? && value < m.start.value then Marks(Some(value), Some(value)) else Marks(m.start, Some(value))
  }

  /** Moving a slider twice to the same value is moving it once, and when
      the `set` on the other slider calls back into that slider's handler,
      the call changes nothing. */
  lemma SliderChangesIdempotent(m: Marks, value: real)
    ensures StartSliderChange(StartSliderChange(m, value), value) == StartSliderChange(m, value)
    ensures EndSliderChange(EndSliderChange(m, value), value) == EndSliderChange(m, value)
    ensures var r := StartSliderChange(m, value); r.end.Some? ==> EndSliderChange(r, r.end.value) == r
    ensures var r := EndSliderChange(m, value); r.start.Some? ==> StartSliderChange(r, r.start.value) == r
  {
  }
}
