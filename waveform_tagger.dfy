/** waveform_tagger's `GitaWaveformTagger`, without its widgets: the loaded
    audio and play head, the two markers and the selection derived from
    them, the list of `(start, end, label, tag_type)` segments, the segment
    picked in the list, and the verse shown.

    The audio library is outside the model: the outcome of decoding is a
    parameter of the load, and the mixer's `get_busy()` and `get_pos()`
    are parameters of the position tick. */
module WaveformTagger {
  import opened Wrappers
  import opened Strings
  import opened Corpus
  import opened Markers
  import Viewport
  import Persistence
  import AudioMatch

  /** A snapshot of every field the handlers change. */
  datatype WaveformState = WaveformState(
    audioFile: Option<string>,        // `audio_file`
    samples: bool,                    // `y is not None`
    duration: real,                   // `audio_duration`
    position: real,                   // `current_playback_position`
    isPlaying: bool,                  // `is_playing`
    playbackStart: Option<real>,      // `_playback_start`, None until first set
    segments: seq<Span>,              // `segments`
    marks: Marks,                     // `segment_start`, `segment_end`
    selection: Option<(real, real)>,  // `current_selection`
    selectedIndex: Option<nat>,       // `selected_segment_index`
    currentLabel: Option<string>,     // `current_label`
    tagType: string,                  // `current_tag_type`
    startVisible: bool,               // `start_frame_visible`
    endVisible: bool,                 // `end_frame_visible`
    verse: Option<Verse>,             // `verse_data`
    chapter: Option<Key>,             // `chapter`
    shloka: Option<Key>)              // `verse`

  /** `add_segment` on a state: with a selection and a label, the segment
      is appended and the selection cleared; otherwise nothing happens. */
  function Added(s: WaveformState): (r: WaveformState)
    ensures s.selection.None? || s.currentLabel.None? ==> r == s
    ensures s.selection.Some? && s.currentLabel.Some? ==>
      && r.segments == s.segments + [Span(s.selection.value.0, s.selection.value.1, s.currentLabel.value, s.tagType)]
      && r == Cleared(s).(segments := r.segments)
  {
    if s.selection.None? || s.currentLabel.None? then s
    else
      var seg := Span(s.selection.value.0, s.selection.value.1, s.currentLabel.value, s.tagType);
      Cleared(s).(segments := s.segments + [seg])
  }

  /** `clear_selection` on a state: no selection, no markers, sliders hidden. */
  function Cleared(s: WaveformState): (r: WaveformState)
    ensures r.selection.None? && r.marks == Marks(None, None) && !r.startVisible && !r.endVisible
    ensures r.segments == s.segments
  {
    s.(selection := None, marks := Marks(None, None), startVisible := false, endVisible := false)
  }

  /** The list without its element `i`. */
  function Without(segs: seq<Span>, i: nat): (r: seq<Span>)
    requires i < |segs|
    ensures |r| == |segs| - 1
    ensures forall k :: 0 <= k < i ==> r[k] == segs[k]
    ensures forall k :: i <= k < |r| ==> r[k] == segs[k + 1]
  {
    segs[..i] + segs[i + 1..]
  }

  /** Deleting the element at `i` and putting it back gives the list again. */
  lemma WithoutInsert(segs: seq<Span>, i: nat)
    requires i < |segs|
    ensures Without(segs, i)[..i] + [segs[i]] + Without(segs, i)[i..] == segs
  {
    var w := Without(segs, i);
    assert w[..i] == segs[..i];
    assert w[i..] == segs[i + 1..];
    assert segs[..i] + [segs[i]] + segs[i + 1..] == segs;
  }

  /** Deleting what was just added gives the list back. */
  lemma AddThenDeleteRestores(segs: seq<Span>, seg: Span)
    ensures Without(segs + [seg], |segs|) == segs
  {
    assert (segs + [seg])[..|segs|] == segs;
  }

  /** Deleting removes exactly the element at the index: the multiset of
      segments loses that one element and nothing else. */
  lemma DeleteRemovesOne(segs: seq<Span>, i: nat)
    requires i < |segs|
    ensures multiset(Without(segs, i)) + multiset{segs[i]} == multiset(segs)
  {
    assert segs == segs[..i] + [segs[i]] + segs[i + 1..];
    assert multiset(segs) == multiset(segs[..i]) + multiset{segs[i]} + multiset(segs[i + 1..]);
  }

  /** The tick stops playback at the end of a selection even when the
      whole file was being played: playing from 0 with the selection
      1 s to 2 s still set stops at the tick that reads 3 s. */
  lemma WholeFilePlaybackStopsAtSelectionEnd()
    ensures ReachedSelectionEnd(Some((1.0, 2.0)), TickPosition(3000, Some(0.0), 10.0))
    ensures !ReachedSelectionEnd(None, TickPosition(3000, Some(0.0), 10.0))
  {
  }

  /** The play head after one tick: the elapsed time plus where playback
      began, never past the end of the audio. */
  function TickPosition(posMs: int, playbackStart: Option<real>, duration: real): (r: real)
    ensures r <= duration
    ensures playbackStart.None? ==> r == Viewport.Min(posMs as real / 1000.0, duration)
    ensures playbackStart.Some? ==> r == Viewport.Min(posMs as real / 1000.0 + playbackStart.value, duration)
  {
    var p := posMs as real / 1000.0;
    var p' := if playbackStart.Some? then p + playbackStart.value else p;
    Viewport.Min(p', duration)
  }

  /** The stop test of the tick: a selection exists and the play head has
      reached its end (whatever started the playback). */
  predicate ReachedSelectionEnd(selection: Option<(real, real)>, pos: real) {
    selection.Some? && pos >= selection.value.1
  }

  // ---------------------------------------------------------------- slider commands

  /* A `ttk.Scale` runs its command on every `set`, with the value clamped
     to its range, as well as when it is dragged. The handlers below that
     call `set` therefore run these state functions too. */

  /** `on_start_slider_change(value)` on a state: the start becomes the
      value, an end before it is raised to it (the end slider's `set` then
      runs `on_end_slider_change(value)`, which changes nothing more), and
      the selection follows the markers. */
  function StartSlid(s: WaveformState, value: real): WaveformState {
    var m := StartSliderChange(s.marks, value);
    s.(marks := m, selection := Markers.UpdateSelection(m, s.selection))
  }

  /** `on_end_slider_change(value)` on a state. */
  function EndSlid(s: WaveformState, value: real): WaveformState {
    var m := EndSliderChange(s.marks, value);
    s.(marks := m, selection := Markers.UpdateSelection(m, s.selection))
  }

  /** `on_position_slider_change(value)` on a state: with audio of some
      length, the play head goes to that share of it, and a running
      playback restarts there. */
  function PositionSlid(s: WaveformState, value: real): WaveformState {
    if s.audioFile.None? || s.duration == 0.0 then s
    else
      var p := value / 100.0 * s.duration;
      s.(position := p, playbackStart := if s.isPlaying then Some(p) else s.playbackStart)
  }

  /** The value a scale from 0 to `top` holds, and passes to its command,
      after `set(x)`. */
  function ScaleValue(x: real, top: real): (r: real)
    requires 0.0 <= top
    ensures 0.0 <= r <= top
    ensures 0.0 <= x <= top ==> r == x
  {
    if x < 0.0 then 0.0 else if x > top then top else x
  }

  /** `on_segment_select` on a state, for row `i`: the segment's times
      become the selection, then each visible slider is `set` to its end
      of the segment, which runs that slider's command. */
  function SegmentSelected(s: WaveformState, i: nat): WaveformState
    requires i < |s.segments|
  {
    var seg := s.segments[i];
    var s1 := s.(selectedIndex := Some(i), selection := Some((seg.start, seg.end)));
    var s2 := if s.startVisible then StartSlid(s1, seg.start) else s1;
    if s.endVisible then EndSlid(s2, seg.end) else s2
  }

  /** For a segment whose start is not after its end, and markers that are
      set only while their slider is shown, picking it makes its times the
      selection and the shown sliders' markers; nothing else changes. */
  lemma SelectShowsSegment(s: WaveformState, i: nat)
    requires i < |s.segments| && s.segments[i].start <= s.segments[i].end
    requires (s.marks.start.Some? ==> s.startVisible) && (s.marks.end.Some? ==> s.endVisible)
    ensures var seg := s.segments[i];
      SegmentSelected(s, i)
        == s.(selectedIndex := Some(i), selection := Some((seg.start, seg.end)),
              marks := Marks(if s.startVisible then Some(seg.start) else None,
                             if s.endVisible then Some(seg.end) else None))
  {
  }

  /** A tick rebases playback on the play head: the position slider's
      `set` runs `on_position_slider_change`, which reads the play head
      back unchanged and restarts playback from it. */
  lemma TickRebasesPlayback(s: WaveformState, p: real)
    requires s.audioFile.Some? && s.isPlaying && 0.0 < s.duration && 0.0 <= p <= s.duration
    ensures PositionSlid(s.(position := p), ScaleValue(p / s.duration * 100.0, 100.0))
              == s.(position := p, playbackStart := Some(p))
  {
    var d := s.duration;
    assert p / d <= 1.0;
    assert ScaleValue(p / d * 100.0, 100.0) == p / d * 100.0;
    assert p / d * 100.0 / 100.0 * d == p;
  }

  // ---------------------------------------------------------------- load and display

  /** `load_audio_file` on a state; `decoded` is the duration the decoder
      reported, None when it failed. The file name is kept either way. On
      success the play head goes to 0, the position slider's `set(0)` runs
      its command (restarting a running playback at 0), and the segment
      list is emptied; the picked index, the selection and the markers
      stay. */
  function AudioLoaded(s: WaveformState, path: string, decoded: Option<real>): WaveformState {
    if decoded.None? then s.(audioFile := Some(path))
    else
      var s1 := s.(audioFile := Some(path), samples := true, duration := decoded.value, position := 0.0);
      PositionSlid(s1, 0.0).(segments := [])
  }

  /** The segment loading of `display_verse` on a state: the verse, its
      chapter and verse when it has them, and its segments, read by the
      corrected loader `Persistence.LoadSpan`. */
  function VerseShown(s: WaveformState, v: Verse): WaveformState {
    s.(verse := Some(v),
       chapter := if v.chapter.Some? then v.chapter else s.chapter,
       shloka := if v.shloka.Some? then v.shloka else s.shloka,
       segments := Persistence.LoadedSpans(v.segments))
  }

  /** `find_matching_audio` on a state: `matched` is the audio file that
      the directory listing gives for the pattern `chapter.verse` (the
      listing is I/O), loaded when the chapter and the verse are truthy. */
  function AudioFound(s: WaveformState, matched: Option<string>, decoded: Option<real>): WaveformState {
    if AudioMatch.Truthy(s.chapter) && AudioMatch.Truthy(s.shloka) && matched.Some?
    then AudioLoaded(s, matched.value, decoded)
    else s
  }

  /** `display_verse` as written: the segments are loaded, and then the
      matching audio, whose load empties the segment list. */
  function DisplayedAsWritten(s: WaveformState, v: Verse, matched: Option<string>, decoded: Option<real>): WaveformState {
    AudioFound(VerseShown(s, v), matched, decoded)
  }

  /** `display_verse` as intended: the matching audio is loaded and the
      verse's segments are shown with it. */
  function Displayed(s: WaveformState, v: Verse, matched: Option<string>, decoded: Option<real>): WaveformState {
    VerseShown(AudioFound(VerseShown(s, v), matched, decoded), v)
  }

  /** How `Displayed` comes out, by whether an audio file is loaded. */
  lemma DisplayCases(s: WaveformState, v: Verse, matched: Option<string>, decoded: Option<real>)
    ensures var s1 := VerseShown(s, v);
      if AudioMatch.Truthy(s1.chapter) && AudioMatch.Truthy(s1.shloka) && matched.Some?
      then Displayed(s, v, matched, decoded)
             == AudioLoaded(s1, matched.value, decoded).(segments := Persistence.LoadedSpans(v.segments))
      else Displayed(s, v, matched, decoded) == s1
  {
  }

  /** As written, showing a verse whose audio file is found and decodes
      leaves an empty segment list, whatever segments the verse has. */
  lemma DisplayWipesSegments(s: WaveformState, v: Verse, path: string, d: real)
    requires AudioMatch.Truthy(VerseShown(s, v).chapter) && AudioMatch.Truthy(VerseShown(s, v).shloka)
    requires v.segments != []
    ensures DisplayedAsWritten(s, v, Some(path), Some(d)).segments == []
    ensures |Displayed(s, v, Some(path), Some(d)).segments| == |v.segments| > 0
  {
  }

  /** As intended, showing a verse gives its segments, in order, whether or
      not its audio is found; a found file is loaded as `load_audio_file`
      loads it; and without a found file both versions agree. */
  lemma DisplayShowsVerse(s: WaveformState, v: Verse, matched: Option<string>, decoded: Option<real>)
    ensures var r := Displayed(s, v, matched, decoded);
      && r.verse == Some(v) && r.segments == Persistence.LoadedSpans(v.segments)
      && (AudioFound(VerseShown(s, v), matched, decoded) == VerseShown(s, v) ==>
            r == VerseShown(s, v) && DisplayedAsWritten(s, v, matched, decoded) == r)
      && (AudioMatch.Truthy(r.chapter) && AudioMatch.Truthy(r.shloka) && matched.Some? ==>
            r == AudioLoaded(VerseShown(s, v), matched.value, decoded).(segments := r.segments))
  {
  }

  class Tagger {
    var audioFile: Option<string>
    var samples: bool
    var duration: real
    var position: real
    var isPlaying: bool
    var playbackStart: Option<real>
    var segments: seq<Span>
    var marks: Marks
    var selection: Option<(real, real)>
    var selectedIndex: Option<nat>
    var currentLabel: Option<string>
    var tagType: string
    var startVisible: bool
    var endVisible: bool
    var verse: Option<Verse>
    var chapter: Option<Key>
    var shloka: Option<Key>

    function State(): WaveformState
      reads this
    {
      WaveformState(audioFile, samples, duration, position, isPlaying, playbackStart, segments, marks,
                    selection, selectedIndex, currentLabel, tagType, startVisible, endVisible,
                    verse, chapter, shloka)
    }

    /** The invariant every handler keeps: a duration that is not negative,
        a play head not past it, and samples only for a named file. */
    predicate Valid()
      reads this
    {
      0.0 <= duration && position <= duration && (samples ==> audioFile.Some?)
    }

    /** The state after `__init__` (the corpus file read at start-up is I/O). */
    constructor ()
      ensures Valid()
      ensures State() == WaveformState(None, false, 0.0, 0.0, false, None, [], Marks(None, None), None, None,
                                       None, DefaultTag, false, false, None, None, None)
    {
      audioFile, samples, duration, position, isPlaying, playbackStart := None, false, 0.0, 0.0, false, None;
      segments, marks, selection, selectedIndex := [], Marks(None, None), None, None;
      currentLabel, tagType, startVisible, endVisible := None, DefaultTag, false, false;
      verse, chapter, shloka := None, None, None;
    }

    // ------------------------------------------------------------ markers and selection

    /** `update_selection`: see `Markers.UpdateSelection`. */
    method UpdateSelection()
      modifies this
      ensures State() == old(State()).(selection := Markers.UpdateSelection(old(marks), old(selection)))
    {
      selection := Markers.UpdateSelection(marks, selection);
    }

    /** `mark_segment_start` and `show_start_slider`: with audio of some
        length loaded, a hidden start slider is shown and the start marker
        set to the play head. */
    method MarkSegmentStart()
      requires Valid()
      modifies this
      ensures Valid()
      ensures !old(samples) || old(duration) == 0.0 || old(startVisible) ==> State() == old(State())
      ensures old(samples) && old(duration) != 0.0 && !old(startVisible) ==>
        var m := old(marks).(start := Some(old(position)));
        State() == old(State()).(startVisible := true, marks := m, selection := Markers.UpdateSelection(m, old(selection)))
    {
      if !samples || duration == 0.0 || startVisible {
        return;
      }
      startVisible := true;
      marks := marks.(start := Some(position));
      UpdateSelection();
    }

    /** `mark_segment_end` and `show_end_slider`. */
    method MarkSegmentEnd()
      requires Valid()
      modifies this
      ensures Valid()
      ensures !old(samples) || old(duration) == 0.0 || old(endVisible) ==> State() == old(State())
      ensures old(samples) && old(duration) != 0.0 && !old(endVisible) ==>
        var m := old(marks).(end := Some(old(position)));
        State() == old(State()).(endVisible := true, marks := m, selection := Markers.UpdateSelection(m, old(selection)))
    {
      if !samples || duration == 0.0 || endVisible {
        return;
      }
      endVisible := true;
      marks := marks.(end := Some(position));
      UpdateSelection();
    }

    /** `set_start_to_current`: the start marker moves to the play head,
        and the start slider's `set` runs its command, which raises an end
        before it. */
    method SetStartToCurrent()
      requires Valid()
      modifies this
      ensures Valid() && State() == StartSlid(old(State()), old(position))
      ensures Consistent(marks) && marks.start == Some(position)
    {
      marks := marks.(start := Some(position));
      OnStartSliderChange(position);  // `start_slider.set`
      UpdateSelection();
    }

    /** `set_end_to_current`: the mirror case, lowering a start after the
        play head. */
    method SetEndToCurrent()
      requires Valid()
      modifies this
      ensures Valid() && State() == EndSlid(old(State()), old(position))
      ensures Consistent(marks) && marks.end == Some(position)
    {
      marks := marks.(end := Some(position));
      OnEndSliderChange(position);  // `end_slider.set`
      UpdateSelection();
    }

    /** `on_start_slider_change`: the markers stay in order, and the
        selection is them in order. Raising the end `set`s the end slider,
        whose command then finds the markers in order. */
    method OnStartSliderChange(value: real)
      requires Valid()
      modifies this
      ensures Valid() && State() == StartSlid(old(State()), value)
      ensures Consistent(marks)
      ensures marks.end.Some? ==> selection == Some((value, marks.end.value))
    {
      marks := marks.(start := Some(value));
      if marks.end.Some? && value > marks.end.value {
        marks := marks.(end := Some(value));
        marks := EndSliderChange(marks, value);  // `end_slider.set(value)` runs `on_end_slider_change`
        UpdateSelection();
      }
      UpdateSelection();
    }

    /** `on_end_slider_change`: the mirror case. */
    method OnEndSliderChange(value: real)
      requires Valid()
      modifies this
      ensures Valid() && State() == EndSlid(old(State()), value)
      ensures Consistent(marks)
      ensures marks.start.Some? ==> selection == Some((marks.start.value, value))
    {
      marks := marks.(end := Some(value));
      if marks.start.Some? && value < marks.start.value {
        marks := marks.(start := Some(value));
        marks := StartSliderChange(marks, value);  // `start_slider.set(value)` runs `on_start_slider_change`
        UpdateSelection();
      }
      UpdateSelection();
    }

    /** `clear_selection`. */
    method ClearSelection()
      requires Valid()
      modifies this
      ensures Valid() && State() == Cleared(old(State()))
    {
      selection, marks, startVisible, endVisible := None, Marks(None, None), false, false;
    }

    // ------------------------------------------------------------ the segment list

    /** `add_segment`. Zero-length and inverted selections are accepted. */
    method AddSegment()
      requires Valid()
      modifies this
      ensures Valid() && State() == Added(old(State()))
      ensures old(selection).Some? && old(currentLabel).Some? ==>
        |segments| == |old(segments)| + 1 && segments[..|old(segments)|] == old(segments)
    {
      if selection.None? || currentLabel.None? {
        return;
      }
      var seg := Span(selection.value.0, selection.value.1, currentLabel.value, tagType);
      segments := segments + [seg];
      ClearSelection();
    }

    /** `set_custom_label`: a label that is not blank once stripped becomes
        the current label, and is added at once when there is a selection. */
    method SetCustomLabel(entry: string)
      requires Valid()
      modifies this
      ensures Valid()
      ensures Strip(entry) == [] ==> State() == old(State())
      ensures Strip(entry) != [] ==>
        var s := old(State()).(currentLabel := Some(Strip(entry)));
        State() == if s.selection.Some? then Added(s) else s
    {
      var text := Strip(entry);
      if text == [] {
        return;
      }
      currentLabel := Some(text);
      if selection.Some? {
        AddSegment();
      }
    }

    /** `delete_segment`: the picked segment goes, the others keep their
        order, and no segment stays picked. With none picked, or a stale
        index past the end (an `IndexError`), nothing changes. */
    method DeleteSegment()
      requires Valid()
      modifies this
      ensures Valid()
      ensures old(selectedIndex).None? || old(selectedIndex).value >= |old(segments)| ==> State() == old(State())
      ensures old(selectedIndex).Some? && old(selectedIndex).value < |old(segments)| ==>
        State() == old(State()).(segments := Without(old(segments), old(selectedIndex).value), selectedIndex := None)
    {
      if selectedIndex.None? || selectedIndex.value >= |segments| {
        return;
      }
      segments := Without(segments, selectedIndex.value);
      selectedIndex := None;
    }

    /** `on_segment_select` with the row picked in the list (None when the
        pick was cleared): see `SegmentSelected`. */
    method OnSegmentSelect(row: Option<nat>)
      requires Valid() && (row.Some? ==> row.value < |segments|)
      modifies this
      ensures Valid()
      ensures row.None? ==> State() == old(State()).(selectedIndex := None)
      ensures row.Some? ==> State() == SegmentSelected(old(State()), row.value)
    {
      if row.None? {
        selectedIndex := None;
        return;
      }
      var seg := segments[row.value];
      selectedIndex := row;
      selection := Some((seg.start, seg.end));
      if startVisible {
        OnStartSliderChange(seg.start);  // `start_slider.set(start)`
        marks := marks.(start := Some(seg.start));
      }
      if endVisible {
        OnEndSliderChange(seg.end);  // `end_slider.set(end)`
        marks := marks.(end := Some(seg.end));
      }
    }

    /** `toggle_tag_type`: "word" becomes "line", anything else "word". */
    method ToggleTagType()
      requires Valid()
      modifies this
      ensures Valid()
      ensures State() == old(State()).(tagType := if old(tagType) == "word" then "line" else "word")
      ensures tagType == "word" || tagType == "line"
    {
      tagType := if tagType == "word" then "line" else "word";
    }

    /** `on_tag_type_change` with the type picked in the box. */
    method OnTagTypeChange(choice: string)
      requires Valid()
      modifies this
      ensures Valid() && State() == old(State()).(tagType := choice)
    {
      tagType := choice;
    }

    // ------------------------------------------------------------ load and save

    /** `load_audio_file`: see `AudioLoaded`. */
    method LoadAudioFile(path: string, decoded: Option<real>)
      requires Valid() && (decoded.Some? ==> decoded.value >= 0.0)
      modifies this
      ensures Valid() && State() == AudioLoaded(old(State()), path, decoded)
      ensures decoded.Some? ==> segments == [] && position == 0.0 && duration == decoded.value
    {
      audioFile := Some(path);
      if decoded.None? {
        return;
      }
      samples, duration, position := true, decoded.value, 0.0;
      ghost var s1 := State();
      OnPositionSliderChange(0.0);  // `position_slider.set(0)`
      ghost var s2 := State();
      assert s2 == PositionSlid(s1, 0.0);
      segments := [];
      assert State() == s2.(segments := []);
    }

    /** The first half of `display_verse`: the verse, its chapter and
        verse when it has them, and its segments, read by the corrected
        loader. */
    method ShowVerseSegments(v: Verse)
      requires Valid()
      modifies this
      ensures Valid() && State() == VerseShown(old(State()), v)
    {
      var loaded := Persistence.LoadSpans(v.segments);
      verse, segments := Some(v), loaded;
      if v.chapter.Some? {
        chapter := v.chapter;
      }
      if v.shloka.Some? {
        shloka := v.shloka;
      }
    }

    /** `display_verse` as intended (see `Displayed`): the verse and its
        segments, with its audio file loaded when one is found, and the
        segments shown again once it is. */
    method DisplayVerse(v: Verse, matched: Option<string>, decoded: Option<real>)
      requires Valid() && (decoded.Some? ==> decoded.value >= 0.0)
      modifies this
      ensures Valid() && State() == Displayed(old(State()), v, matched, decoded)
      ensures verse == Some(v) && segments == Persistence.LoadedSpans(v.segments)
    {
      DisplayCases(old(State()), v, matched, decoded);
      ShowVerseSegments(v);
      if AudioMatch.Truthy(chapter) && AudioMatch.Truthy(shloka) && matched.Some? {
        LoadAudioFile(matched.value, decoded);
        ghost var s2 := State();
        segments := Persistence.LoadSpans(v.segments);
        assert State() == s2.(segments := segments);
      }
    }

    /** `save_tagged_data`; `confirmed` is whether a file was chosen in the
        dialog. Nothing changes. */
    method SaveTaggedData(confirmed: bool) returns (r: Option<SavedVerse>)
      requires Valid()
      ensures confirmed ==> r == Persistence.SaveSpans(verse, segments, audioFile)
      ensures !confirmed ==> r.None?
    {
      if verse.None? || segments == [] || !confirmed {
        return None;
      }
      var out := Persistence.SerializeSpans(segments);
      assert out == Persistence.SaveSpans(verse, segments, audioFile).value.segments;
      r := Some(SavedVerse(verse.value.chapter.GetOr(Str("")), verse.value.shloka.GetOr(Str("")),
                           Persistence.SavedFilename(audioFile), out));
    }

    // ------------------------------------------------------------ playback and navigation

    /** One tick of `update_position`, with the mixer's `get_busy()` and
        `get_pos()`: while playing, the play head follows the mixer, the
        position slider's `set` runs its command (which restarts playback
        from the play head, see `TickRebasesPlayback`), and playback stops
        once it reaches the end of a selection. */
    method UpdatePosition(busy: bool, posMs: int)
      requires Valid()
      modifies this
      ensures Valid()
      ensures !(old(isPlaying) && busy) ==> State() == old(State())
      ensures old(isPlaying) && busy ==>
        var p := TickPosition(posMs, old(playbackStart), old(duration));
        var v := if old(duration) > 0.0 then p / old(duration) * 100.0 else 0.0;
        State() == PositionSlid(old(State()).(position := p), ScaleValue(v, 100.0))
                     .(isPlaying := !ReachedSelectionEnd(old(selection), p))
    {
      if !(isPlaying && busy) {
        return;
      }
      var p := TickPosition(posMs, playbackStart, duration);
      position := p;
      var v := if duration > 0.0 then p / duration * 100.0 else 0.0;
      OnPositionSliderChange(ScaleValue(v, 100.0));  // `position_slider.set`
      if ReachedSelectionEnd(selection, p) {
        isPlaying := false;
      }
    }

    /** `toggle_play`: pause, or play the whole file from the play head. */
    method TogglePlay()
      requires Valid()
      modifies this
      ensures Valid()
      ensures old(audioFile).None? ==> State() == old(State())
      ensures old(audioFile).Some? && old(isPlaying) ==> State() == old(State()).(isPlaying := false)
      ensures old(audioFile).Some? && !old(isPlaying) ==>
        State() == old(State()).(isPlaying := true, playbackStart := Some(old(position)))
    {
      if audioFile.None? {
        return;
      }
      if isPlaying {
        isPlaying := false;
      } else {
        playbackStart := Some(position);
        isPlaying := true;
      }
    }

    /** `play_selection`: play from the selection's start; the play head
        moves there on the next tick. */
    method PlaySelection()
      requires Valid()
      modifies this
      ensures Valid()
      ensures old(audioFile).None? || old(selection).None? ==> State() == old(State())
      ensures old(audioFile).Some? && old(selection).Some? ==>
        State() == old(State()).(playbackStart := Some(old(selection).value.0), isPlaying := true)
    {
      if audioFile.None? || selection.None? {
        return;
      }
      playbackStart := Some(selection.value.0);
      isPlaying := true;
    }

    /** `stop_playback`: the play head stays where it is. */
    method StopPlayback()
      requires Valid()
      modifies this
      ensures Valid() && State() == old(State()).(isPlaying := false)
    {
      isPlaying := false;
    }

    /** `jump_back`: one second back, not before 0. */
    method JumpBack()
      requires Valid()
      modifies this
      ensures Valid()
      ensures !old(samples) || old(duration) == 0.0 ==> State() == old(State())
      ensures old(samples) && old(duration) != 0.0 ==>
        var p := Viewport.Max(0.0, old(position) - 1.0);
        && State() == old(State()).(position := p, playbackStart := if old(isPlaying) then Some(p) else old(playbackStart))
        && 0.0 <= position <= duration
    {
      if !samples || duration == 0.0 {
        return;
      }
      var p := Viewport.Max(0.0, position - 1.0);
      position := p;
      if isPlaying {
        playbackStart := Some(p);
      }
    }

    /** `jump_forward`: one second on, not past the end. */
    method JumpForward()
      requires Valid()
      modifies this
      ensures Valid()
      ensures !old(samples) || old(duration) == 0.0 ==> State() == old(State())
      ensures old(samples) && old(duration) != 0.0 ==>
        var p := Viewport.Min(old(duration), old(position) + 1.0);
        && State() == old(State()).(position := p, playbackStart := if old(isPlaying) then Some(p) else old(playbackStart))
        && position <= duration && (old(position) >= 0.0 ==> 0.0 <= position)
    {
      if !samples || duration == 0.0 {
        return;
      }
      var p := Viewport.Min(duration, position + 1.0);
      position := p;
      if isPlaying {
        playbackStart := Some(p);
      }
    }

    /** `on_position_slider_change` with the slider's value: the play head
        goes to that share of the audio, and playback restarts there. */
    method OnPositionSliderChange(value: real)
      requires Valid() && 0.0 <= value <= 100.0
      modifies this
      ensures Valid() && State() == PositionSlid(old(State()), value)
      ensures old(audioFile).Some? && old(duration) != 0.0 ==> 0.0 <= position <= duration
    {
      if audioFile.None? || duration == 0.0 {
        return;
      }
      var p := value / 100.0 * duration;
      assert p <= duration by {
        assert (100.0 - value) / 100.0 * duration >= 0.0;
      }
      position := p;
      playbackStart := if isPlaying then Some(p) else playbackStart;
      assert State() == old(State()).(position := p, playbackStart := playbackStart);
    }
  }
}
