/** tagger_2's `AudacityInspiredGitaTagger`, without its widgets: the
    loaded audio, the play head, the selection, the viewport, the verses
    and the regions last drawn, changed in place by the handlers.

    The audio library is outside the model: the duration it reports is a
    parameter of the loads, and its `get_busy()` and `get_pos()` are
    parameters of the playback tick. A handler that redraws the waveform
    refreshes `regions` as `draw_tagged_regions` does. */
module AudacityTagger {
  import opened Wrappers
  import opened Corpus
  import opened TimeUnits
  import opened Selection
  import opened Viewport
  import opened Regions
  import Commit
  import Migration
  import Persistence
  import AudioMatch

  /** A snapshot of every field the handlers change. */
  datatype TaggerState = TaggerState(
    audioFile: Option<string>,  // `audio_file`; set exactly when the samples `y` are
    duration: real,             // `audio_duration`
    position: real,             // `current_position`
    isPlaying: bool,            // `is_playing`
    playbackStart: real,        // `_playback_start_time`
    sel: Sel,                   // `current_selection`
    viewStart: real,            // `view_start`
    viewWindow: real,           // `view_window`
    allVerses: seq<Verse>,      // `all_verses`
    current: nat,               // `current_verse_index`
    shown: bool,                // `verse_data` is `all_verses[current_verse_index]` (else None)
    currentWord: Option<string>,// `current_word`
    audioFiles: seq<string>,    // `audio_files`
    regions: RegionMap)         // `tagged_regions`

  /** The shown verse is one of the verses. */
  predicate Coherent(s: TaggerState) {
    s.shown ==> s.current < |s.allVerses|
  }

  /** The state after `plot_waveform`: the regions are redrawn when audio is
      loaded and a verse is shown, and nothing else changes. */
  function Redrawn(s: TaggerState): (r: TaggerState)
    requires Coherent(s)
    ensures r.(regions := s.regions) == s
    ensures s.audioFile.Some? && s.shown ==> r.regions == TaggedRegions(s.allVerses[s.current])
  {
    if s.audioFile.Some? && s.shown then s.(regions := TaggedRegions(s.allVerses[s.current])) else s
  }

  /** Whether the redraw of `s` runs to its end: `draw_tagged_regions`
      raises `KeyError` on a drawable segment whose type has no colour, and
      the exception ends the handler that redrew. */
  predicate DrawCompletes(s: TaggerState)
    requires Coherent(s)
  {
    !(s.audioFile.Some? && s.shown) || SegmentPass(s.allVerses[s.current].segments).ok
  }

  /** The state after `load_audio_file` decoded `decoded` seconds from
      `path`, before its redraw. */
  function Loaded(s: TaggerState, path: string, decoded: real): TaggerState {
    s.(audioFile := Some(path), duration := decoded, isPlaying := false,
       position := 0.0, viewStart := 0.0, viewWindow := Min(decoded, 10.0))
  }

  /** The state `load_audio_file` leaves when the decoder reads the file
      but `pygame.mixer.music.load` rejects it: the file and its duration
      are already set, and the `except` keeps the old play head, view and
      window, with no redraw. */
  function MixerRejected(s: TaggerState, path: string, decoded: real): TaggerState {
    s.(audioFile := Some(path), duration := decoded)
  }

  /** A 5 s file rejected by the mixer while a 10 s window is shown at 50 s
      leaves a window wider than the audio and a view start out of range,
      which no other handler produces. */
  lemma MixerRejectBreaksView(s: TaggerState, path: string)
    requires s.viewWindow == 10.0 && s.viewStart == 50.0
    ensures var r := MixerRejected(s, path, 5.0);
      && r.audioFile.Some? && r.viewWindow > r.duration
      && !InRange(r.viewStart, r.duration, r.viewWindow)
  {
  }

  /** `find_corresponding_audio` for verse `index` picks file `i`, the first
      whose name carries the verse's chapter and verse, and it is not the
      file already loaded. */
  predicate LoadsFile(s: TaggerState, index: nat, i: int)
    requires index < |s.allVerses|
  {
    var v := s.allVerses[index];
    && AudioMatch.Truthy(v.chapter) && AudioMatch.Truthy(v.shloka)
    && AudioMatch.FirstMatch(s.audioFiles, AudioMatch.VersePattern(v.chapter.value, v.shloka.value), i)
    && s.audioFile != Some(s.audioFiles[i])
  }

  /** At most one file is the one `find_corresponding_audio` picks. */
  lemma LoadsOneFile(s: TaggerState, index: nat, k: int)
    requires index < |s.allVerses| && LoadsFile(s, index, k)
    ensures forall i :: LoadsFile(s, index, i) ==> i == k
  {
  }

  /** The verse `verse_data` refers to. */
  function ShownVerse(s: TaggerState): (r: Option<Verse>)
    requires Coherent(s)
    ensures r.Some? <==> s.shown
    ensures r.Some? ==> r.value == s.allVerses[s.current]
  {
    if s.shown then Some(s.allVerses[s.current]) else None
  }

  /** Every verse after `migrate_timestamps_to_segments`. */
  function MigratedAll(vs: seq<Verse>): (r: seq<Verse>)
    ensures |r| == |vs|
  {
    seq(|vs|, i requires 0 <= i < |vs| => Migration.MigrateVerse(vs[i]))
  }

  /** Migrating every verse twice is migrating it once, so the second of two
      saves in a row changes no verse. */
  lemma MigratedAllIdempotent(vs: seq<Verse>)
    ensures MigratedAll(MigratedAll(vs)) == MigratedAll(vs)
  {
    forall i | 0 <= i < |vs| ensures MigratedAll(MigratedAll(vs))[i] == MigratedAll(vs)[i] {
      Migration.MigrateIdempotent(vs[i]);
    }
  }

  class Tagger {
    var audioFile: Option<string>
    var duration: real
    var position: real
    var isPlaying: bool
    var playbackStart: real
    var sel: Sel
    var viewStart: real
    var viewWindow: real
    var allVerses: seq<Verse>
    var current: nat
    var shown: bool
    var currentWord: Option<string>
    var audioFiles: seq<string>
    var regions: RegionMap

    function State(): TaggerState
      reads this
    {
      TaggerState(audioFile, duration, position, isPlaying, playbackStart, sel, viewStart, viewWindow,
                  allVerses, current, shown, currentWord, audioFiles, regions)
    }

    /** The invariant every handler keeps: the window is no longer than the
        loaded audio, the view start is one the scrollbar can reach, the
        shown verse exists, and playback runs only with audio loaded. */
    predicate Valid()
      reads this
    {
      && 0.0 <= duration && 0.0 <= viewWindow
      && (audioFile.Some? ==> viewWindow <= duration)
      && InRange(viewStart, duration, viewWindow)
      && Coherent(State())
      && (isPlaying ==> audioFile.Some?)
    }

    /** The state after `__init__`, with the verses and the audio file list
        already read (the reading is I/O). */
    constructor (verses: seq<Verse>, files: seq<string>)
      ensures Valid()
      ensures State() == TaggerState(None, 0.0, 0.0, false, 0.0, Cleared, 0.0, 10.0,
                                     verses, 0, false, None, files, map[])
    {
      audioFile, duration, position, isPlaying, playbackStart := None, 0.0, 0.0, false, 0.0;
      sel, viewStart, viewWindow := Cleared, 0.0, 10.0;
      allVerses, current, shown, currentWord := verses, 0, false, None;
      audioFiles, regions := files, map[];
    }

    /** `plot_waveform`'s one effect on the state: `draw_tagged_regions`. */
    method Redraw()
      requires Valid()
      modifies this
      ensures Valid() && State() == Redrawn(old(State()))
    {
      if audioFile.Some? && shown {
        regions := CollectRegions(allVerses[current]);
      }
    }

    // ------------------------------------------------------------ loading

    /** `load_audio_file`; `decoded` is the duration the decoder reported,
        None when it failed. On success the play head and the view go back
        to the start and the window shows ten seconds or the whole file;
        the selection is kept. A failed decode changes nothing. */
    method LoadAudioFile(path: string, decoded: Option<real>)
      requires Valid() && (decoded.Some? ==> decoded.value >= 0.0)
      modifies this
      ensures Valid()
      ensures decoded.None? ==> State() == old(State())
      ensures decoded.Some? ==> State() == Redrawn(Loaded(old(State()), path, decoded.value))
    {
      if decoded.None? {
        return;
      }
      var d := decoded.value;
      audioFile, duration := Some(path), d;
      isPlaying, position, viewStart, viewWindow := false, 0.0, 0.0, Min(d, 10.0);
      Redraw();
    }

    /** `go_to_verse` once its lookup found verse `index`, then
        `display_verse_data`: the verse is shown, the first audio file
        whose name carries its chapter and verse is loaded unless it is the
        one already loaded (`decoded` is its duration, None when decoding
        fails and the old audio stays), and the regions are redrawn. */
    method ShowVerse(index: nat, decoded: Option<real>)
      requires Valid() && index < |allVerses| && (decoded.Some? ==> decoded.value >= 0.0)
      modifies this
      ensures Valid()
      ensures forall i :: LoadsFile(old(State()), index, i) ==>
        var s1 := old(State()).(current := index, shown := true);
        State() == Redrawn(if decoded.Some? then Loaded(s1, old(audioFiles)[i], decoded.value) else s1)
      ensures (forall i :: !LoadsFile(old(State()), index, i)) ==>
        State() == Redrawn(old(State()).(current := index, shown := true))
    {
      ghost var s0 := old(State());
      ghost var s1 := s0.(current := index, shown := true);
      current, shown := index, true;
      assert State() == s1;
      var v := allVerses[index];
      if audioFiles != [] {
        var found := AudioMatch.FindCorrespondingAudio(v.chapter, v.shloka, audioFiles);
        if found.Some? && audioFile != Some(audioFiles[found.value]) {
          assert LoadsFile(s0, index, found.value);
          LoadsOneFile(s0, index, found.value);
          LoadAudioFile(audioFiles[found.value], decoded);
          assert decoded.Some? ==> State() == Redrawn(Loaded(s1, s0.audioFiles[found.value], decoded.value));
        } else {
          assert forall i :: !LoadsFile(s0, index, i);
        }
      }
      Redraw();
    }

    /** `on_word_select`: the word becomes the current word; when its legacy
        timestamp has both ends they become the selection, as stored (no
        unit inference here). */
    method OnWordSelect(word: string)
      requires Valid()
      modifies this
      ensures Valid()
      ensures !old(shown) ==> State() == old(State())
      ensures old(shown) ==>
        var e := EntryOf(old(allVerses)[old(current)].synonyms, word);
        if e.Some? && e.value.timestamp.Some? && e.value.timestamp.value.start.Some? && e.value.timestamp.value.end.Some?
        then State() == Redrawn(old(State()).(currentWord := Some(word),
                                             sel := Sel(e.value.timestamp.value.start, e.value.timestamp.value.end)))
        else State() == old(State()).(currentWord := Some(word))
    {
      if !shown {
        return;
      }
      currentWord := Some(word);
      var e := EntryOf(allVerses[current].synonyms, word);
      if e.Some? && e.value.timestamp.Some? && e.value.timestamp.value.start.Some? && e.value.timestamp.value.end.Some? {
        sel := Sel(e.value.timestamp.value.start, e.value.timestamp.value.end);
        Redraw();
      }
    }

    // ------------------------------------------------------------ selection

    /** `mark_segment_start`: see `Selection.MarkStart`. */
    method MarkSegmentStart()
      requires Valid()
      modifies this
      ensures Valid()
      ensures old(audioFile).None? ==> State() == old(State())
      ensures old(audioFile).Some? ==> State() == Redrawn(old(State()).(sel := MarkStart(old(sel), old(position))))
      ensures old(audioFile).Some? ==> Ordered(sel) && sel.start == Some(position)
    {
      if audioFile.None? {
        return;
      }
      sel := MarkStart(sel, position);
      Redraw();
    }

    /** `mark_segment_end`: see `Selection.MarkEnd`. */
    method MarkSegmentEnd()
      requires Valid()
      modifies this
      ensures Valid()
      ensures old(audioFile).None? ==> State() == old(State())
      ensures old(audioFile).Some? ==> State() == Redrawn(old(State()).(sel := MarkEnd(old(sel), old(position))))
      ensures old(audioFile).Some? ==> Ordered(sel) && sel.end == Some(position)
    {
      if audioFile.None? {
        return;
      }
      sel := MarkEnd(sel, position);
      Redraw();
    }

    /** `clear_selection`. */
    method ClearSelection()
      requires Valid()
      modifies this
      ensures Valid()
      ensures old(sel) == Cleared ==> State() == old(State())
      ensures old(sel) != Cleared ==> State() == Redrawn(old(State()).(sel := Cleared))
    {
      if sel != Cleared {
        sel := Cleared;
        Redraw();
      }
    }

    /** `on_waveform_click`; `t` is `event.xdata`, None off the axes. */
    method OnWaveformClick(t: Option<real>, shift: bool)
      requires Valid()
      modifies this
      ensures Valid()
      ensures old(audioFile).None? || !OnWaveform(t, old(duration)) ==> State() == old(State())
      ensures old(audioFile).Some? && OnWaveform(t, old(duration)) ==>
        State() == Redrawn(old(State()).(sel := Click(old(sel), t, shift, old(duration))))
    {
      if audioFile.None? || !OnWaveform(t, duration) {
        return;
      }
      sel := Click(sel, t, shift, duration);
      Redraw();
    }

    /** `on_waveform_release`. */
    method OnWaveformRelease(t: Option<real>)
      requires Valid()
      modifies this
      ensures Valid()
      ensures old(audioFile).None? || !(OnWaveform(t, old(duration)) && old(sel).start.Some?) ==> State() == old(State())
      ensures old(audioFile).Some? && OnWaveform(t, old(duration)) && old(sel).start.Some? ==>
        State() == Redrawn(old(State()).(sel := Release(old(sel), t, old(duration)))) && Ordered(sel)
    {
      if audioFile.None? || !(OnWaveform(t, duration) && sel.start.Some?) {
        return;
      }
      sel := Release(sel, t, duration);
      Redraw();
    }

    /** `on_waveform_motion`: no redraw while dragging. */
    method OnWaveformMotion(t: Option<real>, button: int)
      requires Valid()
      modifies this
      ensures Valid()
      ensures old(audioFile).None? ==> State() == old(State())
      ensures old(audioFile).Some? ==> State() == old(State()).(sel := Drag(old(sel), t, button, old(duration)))
    {
      if audioFile.None? {
        return;
      }
      sel := Drag(sel, t, button, duration);
    }

    // ------------------------------------------------------------ commits

    /** `tag_selected_region` with `kind` read from the type buttons: on
        success exactly one segment is appended to the shown verse, and
        nothing else of the corpus changes; on refusal nothing changes. */
    method TagSelectedRegion(kind: string) returns (r: Result<SegmentRecord, Commit.TagError>)
      requires Valid()
      modifies this
      ensures Valid()
      ensures r == Commit.TagWord(old(audioFile).Some?, ShownVerse(old(State())), old(currentWord), old(sel), kind)
      ensures r.Err? ==> State() == old(State())
      ensures r.Ok? ==> State() == Redrawn(old(State()).(allVerses := old(allVerses)[old(current) :=
                                                          Commit.Append(old(allVerses)[old(current)], r.value)]))
    {
      r := Commit.TagWord(audioFile.Some?, ShownVerse(State()), currentWord, sel, kind);
      if r.Ok? {
        allVerses := allVerses[current := Commit.Append(allVerses[current], r.value)];
        Redraw();
      }
    }

    /** `tag_with_custom_label` with the entry text and the type read from
        the widgets. */
    method TagWithCustomLabel(entry: string, kind: string) returns (r: Result<SegmentRecord, Commit.TagError>)
      requires Valid()
      modifies this
      ensures Valid()
      ensures r == Commit.TagCustom(old(audioFile).Some?, ShownVerse(old(State())), old(sel), entry, kind)
      ensures r.Err? ==> State() == old(State())
      ensures r.Ok? ==> State() == Redrawn(old(State()).(allVerses := old(allVerses)[old(current) :=
                                                          Commit.Append(old(allVerses)[old(current)], r.value)]))
    {
      r := Commit.TagCustom(audioFile.Some?, ShownVerse(State()), sel, entry, kind);
      if r.Ok? {
        allVerses := allVerses[current := Commit.Append(allVerses[current], r.value)];
        Redraw();
      }
    }

    // ------------------------------------------------------------ migration and save

    /** `migrate_timestamps_to_segments`: every verse in turn. */
    method MigrateTimestampsToSegments()
      requires Valid()
      modifies this
      ensures Valid()
      ensures State() == old(State()).(allVerses := MigratedAll(old(allVerses)))
    {
      var i := 0;
      while i < |allVerses|
        invariant 0 <= i <= |allVerses| == |old(allVerses)|
        invariant forall k :: 0 <= k < i ==> allVerses[k] == Migration.MigrateVerse(old(allVerses)[k])
        invariant forall k :: i <= k < |allVerses| ==> allVerses[k] == old(allVerses)[k]
        invariant State() == old(State()).(allVerses := allVerses)
      {
        var w := Migration.MigrateEntry(allVerses[i]);
        allVerses := allVerses[i := w];
        i := i + 1;
      }
    }

    /** `save_tagged_data`; `confirmed` is whether a file was chosen in the
        dialog. With a verse shown and a file chosen, every verse is
        migrated and the shown one is written. */
    method SaveTaggedData(confirmed: bool) returns (r: Option<SavedVerse>)
      requires Valid()
      modifies this
      ensures Valid()
      ensures !(old(shown) && confirmed) ==> r.None? && State() == old(State())
      ensures old(shown) && confirmed ==>
        && State() == old(State()).(allVerses := MigratedAll(old(allVerses)))
        && r == Some(Persistence.SaveVerse(Migration.MigrateVerse(old(allVerses)[old(current)]), old(audioFile)))
    {
      if !shown || allVerses == [] || !confirmed {
        return None;
      }
      MigrateTimestampsToSegments();
      var v := allVerses[current];
      var out := Persistence.SerializeRecords(v.segments);
      assert out == Persistence.SaveVerse(v, audioFile).segments;
      r := Some(SavedVerse(v.chapter.GetOr(Str("")), v.shloka.GetOr(Str("")),
                           Persistence.SavedFilename(audioFile), out));
    }

    // ------------------------------------------------------------ viewport

    /** `on_waveform_scroll` with the scrollbar's value. */
    method OnWaveformScroll(value: real)
      requires Valid() && 0.0 <= value <= 100.0
      modifies this
      ensures Valid()
      ensures old(audioFile).None? ==> State() == old(State())
      ensures old(audioFile).Some? ==>
        State() == Redrawn(old(State()).(viewStart := ScrollViewStart(value, old(duration), old(viewWindow))))
    {
      if audioFile.None? {
        return;
      }
      viewStart := ScrollViewStart(value, duration, viewWindow);
      Redraw();
    }

    /** `jump_to_timestamp`: the play head goes to the start (or end) of the
        current word's legacy timestamp, read with the unit inference, and
        the view follows it. */
    method JumpToTimestamp(toEnd: bool)
      requires Valid()
      modifies this
      ensures Valid()
      ensures
        var e := if old(shown) && old(currentWord).Some? then EntryOf(old(allVerses)[old(current)].synonyms, old(currentWord).value) else None;
        var t := if e.Some? && e.value.timestamp.Some? then (if toEnd then e.value.timestamp.value.end else e.value.timestamp.value.start) else None;
        if old(audioFile).None? || old(currentWord) == None || old(currentWord) == Some("") || t.None? then State() == old(State())
        else
          var p := LegacyValueToSeconds(t.value);
          var inView := old(viewStart) <= p <= old(viewStart) + old(viewWindow);
          && (inView ==> State() == old(State()).(position := p))
          && (!inView ==> State() == Redrawn(old(State()).(position := p,
                                     viewStart := JumpViewStart(old(viewStart), old(viewWindow), old(duration), p))))
          && (0.0 <= p <= duration ==> viewStart <= position <= viewStart + viewWindow)
    {
      if audioFile.None? || currentWord == None || currentWord == Some("") || !shown {
        return;
      }
      var e := EntryOf(allVerses[current].synonyms, currentWord.value);
      if e.None? || e.value.timestamp.None? {
        return;
      }
      var t := if toEnd then e.value.timestamp.value.end else e.value.timestamp.value.start;
      if t.None? {
        return;
      }
      var p := LegacyValueToSeconds(t.value);
      position := p;
      if p < viewStart || p > viewStart + viewWindow {
        viewStart := JumpViewStart(viewStart, viewWindow, duration, p);
        Redraw();
      }
    }

    // ------------------------------------------------------------ playback

    /** `toggle_play`: pause, or play from the play head (from the start
        when the play head is within 0.1 s of the end). */
    method TogglePlay()
      requires Valid()
      modifies this
      ensures Valid()
      ensures old(audioFile).None? ==> State() == old(State())
      ensures old(audioFile).Some? && old(isPlaying) ==> State() == old(State()).(isPlaying := false)
      ensures old(audioFile).Some? && !old(isPlaying) ==>
        var p := if old(position) >= old(duration) - 0.1 then 0.0 else old(position);
        State() == old(State()).(position := p, playbackStart := p, isPlaying := true)
    {
      if audioFile.None? {
        return;
      }
      if isPlaying {
        isPlaying := false;
      } else {
        if position >= duration - 0.1 {
          position := 0.0;
        }
        playbackStart := position;
        isPlaying := true;
      }
    }

    /** `stop_playback`: the play head goes back to 0. */
    method StopPlayback()
      requires Valid()
      modifies this
      ensures Valid()
      ensures old(audioFile).None? ==> State() == old(State())
      ensures old(audioFile).Some? ==> State() == old(State()).(isPlaying := false, position := 0.0)
    {
      if audioFile.None? {
        return;
      }
      isPlaying, position := false, 0.0;
    }

    /** `play_selection`: plays a committable selection from its start;
        `delay` is the milliseconds after which `stop_at_selection_end` is
        scheduled, None when nothing is played. */
    method PlaySelection() returns (delay: Option<int>)
      requires Valid()
      modifies this
      ensures Valid()
      ensures delay.Some? <==> old(audioFile).Some? && Commit.Committable(old(sel))
      ensures delay.None? ==> State() == old(State())
      ensures delay.Some? ==>
        && Commit.Committable(old(sel))
        && State() == old(State()).(playbackStart := old(sel).start.value, position := old(sel).start.value, isPlaying := true)
        && delay.value == ToMillis(old(sel).end.value - old(sel).start.value) && delay.value >= 0
    {
      if audioFile.None? || !Commit.Committable(sel) {
        return None;
      }
      var s, e := sel.start.value, sel.end.value;
      playbackStart, position, isPlaying := s, s, true;
      delay := Some(ToMillis(e - s));
    }

    /** `play_tagged_segment`: the current word's legacy timestamp, read with
        the unit inference decided on its start, becomes the selection and
        is played. */
    method PlayTaggedSegment() returns (delay: Option<int>)
      requires Valid()
      modifies this
      ensures Valid()
      ensures
        var e := if old(shown) && old(currentWord).Some? then EntryOf(old(allVerses)[old(current)].synonyms, old(currentWord).value) else None;
        var ok := old(audioFile).Some? && old(currentWord).Some? && old(currentWord) != Some("") && e.Some?
                  && e.value.timestamp.Some? && e.value.timestamp.value.start.Some? && e.value.timestamp.value.end.Some?;
        && (!ok ==> delay.None? && State() == old(State()))
        && (ok ==>
              var p := LegacyPairToSeconds(e.value.timestamp.value.start.value, e.value.timestamp.value.end.value);
              var s1 := Redrawn(old(State()).(sel := Sel(Some(p.0), Some(p.1))));
              if p.0 < p.1 && DrawCompletes(s1)
              then State() == s1.(playbackStart := p.0, position := p.0, isPlaying := true)
                   && delay == Some(ToMillis(p.1 - p.0))
              else State() == s1 && delay.None?)
    {
      if audioFile.None? || currentWord == None || currentWord == Some("") || !shown {
        return None;
      }
      var e := EntryOf(allVerses[current].synonyms, currentWord.value);
      if e.None? || e.value.timestamp.None? || e.value.timestamp.value.start.None? || e.value.timestamp.value.end.None? {
        return None;
      }
      var p := LegacyPairToSeconds(e.value.timestamp.value.start.value, e.value.timestamp.value.end.value);
      sel := Sel(Some(p.0), Some(p.1));
      Redraw();
      if !DrawCompletes(State()) {
        return None;  // the redraw's `KeyError` ends the handler before `play_selection`
      }
      delay := PlaySelection();
    }

    /** `stop_at_selection_end`: playback stops on the selection's end when
        the play head is within 0.1 s of it. */
    method StopAtSelectionEnd()
      requires Valid()
      modifies this
      ensures Valid()
      ensures old(isPlaying) && old(sel).end.Some? && -0.1 < old(position) - old(sel).end.value < 0.1 ==>
        State() == old(State()).(isPlaying := false, position := old(sel).end.value)
      ensures !(old(isPlaying) && old(sel).end.Some? && -0.1 < old(position) - old(sel).end.value < 0.1) ==>
        State() == old(State())
    {
      if isPlaying && sel.end.Some? {
        var end := sel.end.value;
        if -0.1 < position - end < 0.1 {
          isPlaying, position := false, end;
        }
      }
    }

    /** One tick of `update_playback_position`, with the mixer's `get_busy()`
        and `get_pos()`: the play head is the playback start plus the
        elapsed time, and the view scrolls once it passes 90% of the window,
        keeping the play head in view. `rescheduled` says whether the next
        tick is scheduled: a `KeyError` in the scrolling redraw skips the
        `root.after`, and the ticks stop. */
    method UpdatePlaybackPosition(busy: bool, posMs: int) returns (rescheduled: bool)
      requires Valid()
      modifies this
      ensures Valid()
      ensures !rescheduled <==>
        && old(isPlaying) && busy && posMs > 0
        && old(playbackStart) + posMs as real / 1000.0 > old(viewStart) + old(viewWindow) * 0.9
        && !DrawCompletes(old(State()))
      ensures !(old(isPlaying) && busy && posMs > 0) ==> State() == old(State())
      ensures old(isPlaying) && busy && posMs > 0 ==>
        var t := old(playbackStart) + posMs as real / 1000.0;
        && position == t
        && (t <= old(viewStart) + old(viewWindow) * 0.9 ==> State() == old(State()).(position := t))
        && (t > old(viewStart) + old(viewWindow) * 0.9 ==>
              State() == Redrawn(old(State()).(position := t,
                                               viewStart := AutoScrollStart(old(viewStart), old(viewWindow), old(duration), t))))
        && (old(viewStart) <= t <= duration ==> viewStart <= position <= viewStart + viewWindow)
    {
      rescheduled := true;
      if !(isPlaying && busy && posMs > 0) {
        return;
      }
      var t := playbackStart + posMs as real / 1000.0;
      position := t;
      if t > viewStart + viewWindow * 0.9 {
        viewStart := AutoScrollStart(viewStart, viewWindow, duration, t);
        Redraw();
        rescheduled := DrawCompletes(State());
      }
    }
  }
}
