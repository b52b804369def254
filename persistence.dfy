/** What both taggers write on save and what the waveform tagger reads back
    on load. The saved form keeps, per verse, the chapter, the verse number,
    the audio file's base name and the segments, with times in whole
    milliseconds (`int(seconds * 1000)`) and the segment type under `tag`.

    Loading, as the waveform tagger's `display_verse` writes it, guesses the
    unit of each time on its own (`x / 1000 if x > 1000 else x`), so a saved
    time of one second or less comes back a thousand times too large
    (`LoadSpanAsWritten`, `SaveLoadMisreadsShortTimes`). `LoadSpan` reads
    the records that carry a `tag`, which only the save writes, as the
    milliseconds they are; the rest of the model uses it. */
module Persistence {
  import opened Wrappers
  import opened Corpus
  import opened TimeUnits
  import AudioMatch

  // ---------------------------------------------------------------- saving

  /** The `filename` field: the base name of the loaded audio, or "" when
      there is none. */
  function SavedFilename(audioFile: Option<string>): (r: string)
    ensures audioFile.None? ==> r == ""
    ensures audioFile.Some? ==> r == AudioMatch.Basename(audioFile.value)
  {
    if audioFile.Some? && audioFile.value != "" then AudioMatch.Basename(audioFile.value) else ""
  }

  /** tagger_2: one in-memory segment as saved. */
  function SaveRecord(s: SegmentRecord): (r: SavedSegment)
    ensures r.name == s.name && r.tag == s.kind.GetOr(DefaultTag)
    ensures s.start >= 0.0 ==> r.start as real <= s.start * 1000.0 < r.start as real + 1.0
    ensures s.end >= 0.0 ==> r.end as real <= s.end * 1000.0 < r.end as real + 1.0
  {
    SavedSegment(ToMillis(s.start), ToMillis(s.end), s.name, s.kind.GetOr(DefaultTag))
  }

  /** waveform_tagger: one `(start, end, label, tag_type)` tuple as saved. */
  function SaveSpan(sp: Span): (r: SavedSegment)
    ensures r.name == sp.name && r.tag == sp.tagType
    ensures sp.start >= 0.0 ==> r.start as real <= sp.start * 1000.0 < r.start as real + 1.0
    ensures sp.end >= 0.0 ==> r.end as real <= sp.end * 1000.0 < r.end as real + 1.0
  {
    SavedSegment(ToMillis(sp.start), ToMillis(sp.end), sp.name, sp.tagType)
  }

  /** tagger_2's saved verse: the chapter and verse keys ("" when absent)
      and every segment, in order. */
  function SaveVerse(v: Verse, audioFile: Option<string>): (r: SavedVerse)
    ensures r.chapter == v.chapter.GetOr(Str("")) && r.shloka == v.shloka.GetOr(Str(""))
    ensures r.filename == SavedFilename(audioFile)
    ensures |r.segments| == |v.segments|
    ensures forall i :: 0 <= i < |v.segments| ==> r.segments[i] == SaveRecord(v.segments[i])
  {
    SavedVerse(v.chapter.GetOr(Str("")), v.shloka.GetOr(Str("")), SavedFilename(audioFile),
               seq(|v.segments|, i requires 0 <= i < |v.segments| => SaveRecord(v.segments[i])))
  }

  /** waveform_tagger's saved verse; nothing is saved without a verse or
      without segments. */
  function SaveSpans(verse: Option<Verse>, spans: seq<Span>, audioFile: Option<string>): (r: Option<SavedVerse>)
    ensures r.Some? <==> verse.Some? && spans != []
    ensures r.Some? ==>
      && r.value.chapter == verse.value.chapter.GetOr(Str(""))
      && r.value.shloka == verse.value.shloka.GetOr(Str(""))
      && r.value.filename == SavedFilename(audioFile)
      && |r.value.segments| == |spans|
      && forall i :: 0 <= i < |spans| ==> r.value.segments[i] == SaveSpan(spans[i])
  {
    if verse.None? || spans == [] then None
    else Some(SavedVerse(verse.value.chapter.GetOr(Str("")), verse.value.shloka.GetOr(Str("")),
                         SavedFilename(audioFile),
                         seq(|spans|, i requires 0 <= i < |spans| => SaveSpan(spans[i]))))
  }

  /** The loop that builds the saved segments of tagger_2. */
  method SerializeRecords(segs: seq<SegmentRecord>) returns (out: seq<SavedSegment>)
    ensures |out| == |segs|
    ensures forall i :: 0 <= i < |segs| ==> out[i] == SaveRecord(segs[i])
  {
    out := [];
    var i := 0;
    while i < |segs|
      invariant 0 <= i <= |segs| && |out| == i
      invariant forall k :: 0 <= k < i ==> out[k] == SaveRecord(segs[k])
    {
      out := out + [SaveRecord(segs[i])];
      i := i + 1;
    }
  }

  /** The loop that builds the saved segments of waveform_tagger. */
  method SerializeSpans(spans: seq<Span>) returns (out: seq<SavedSegment>)
    ensures |out| == |spans|
    ensures forall i :: 0 <= i < |spans| ==> out[i] == SaveSpan(spans[i])
  {
    out := [];
    var i := 0;
    while i < |spans|
      invariant 0 <= i <= |spans| && |out| == i
      invariant forall k :: 0 <= k < i ==> out[k] == SaveSpan(spans[k])
    {
      out := out + [SaveSpan(spans[i])];
      i := i + 1;
    }
  }

  /** Saving keeps the order of the two ends of each segment. */
  lemma SaveKeepsOrder(sp: Span)
    requires sp.start <= sp.end
    ensures SaveSpan(sp).start <= SaveSpan(sp).end
  {
    ToMillisMonotone(sp.start, sp.end);
  }

  // ---------------------------------------------------------------- loading

  /** A saved segment as the loader sees it: the times as written, the
      label, and the type under `tag`. */
  function SavedToRecord(s: SavedSegment): (r: SegmentRecord)
    ensures r.start == s.start as real && r.end == s.end as real
    ensures r.name == s.name && r.tag == Some(s.tag) && r.kind.None?
  {
    SegmentRecord(s.start as real, s.end as real, s.name, None, Some(s.tag), None)
  }

  /** `display_verse` as written: each time on its own is taken for
      milliseconds when above 1000; the type is `tag`, "word" by default. */
  function LoadSpanAsWritten(s: SegmentRecord): (r: Span)
    ensures r.start == LegacyValueToSeconds(s.start) && r.end == LegacyValueToSeconds(s.end)
    ensures r.name == s.name && r.tagType == s.tag.GetOr(DefaultTag)
  {
    Span(LegacyValueToSeconds(s.start), LegacyValueToSeconds(s.end), s.name, s.tag.GetOr(DefaultTag))
  }

  /** Loading as intended: a record carrying a `tag` was written by a save,
      in milliseconds, so its ends keep their order; any other record is
      read as written, each time on its own. */
  function LoadSpan(s: SegmentRecord): (r: Span)
    ensures r.name == s.name && r.tagType == s.tag.GetOr(DefaultTag)
    ensures s.tag.Some? ==> r.start * 1000.0 == s.start && r.end * 1000.0 == s.end
    ensures s.tag.Some? && s.start <= s.end ==> r.start <= r.end
    ensures s.tag.None? ==> r == LoadSpanAsWritten(s)
  {
    if s.tag.Some? then Span(s.start / 1000.0, s.end / 1000.0, s.name, s.tag.value)
    else LoadSpanAsWritten(s)
  }

  /** The segments list after loading a verse. */
  function LoadedSpans(segs: seq<SegmentRecord>): (r: seq<Span>)
    ensures |r| == |segs|
  {
    seq(|segs|, i requires 0 <= i < |segs| => LoadSpan(segs[i]))
  }

  /** The loop of `display_verse` that fills the segments list. */
  method LoadSpans(segs: seq<SegmentRecord>) returns (out: seq<Span>)
    ensures out == LoadedSpans(segs)
  {
    out := [];
    var i := 0;
    while i < |segs|
      invariant 0 <= i <= |segs|
      invariant out == LoadedSpans(segs[..i])
    {
      assert LoadedSpans(segs[..i + 1]) == LoadedSpans(segs[..i]) + [LoadSpan(segs[i])];
      out := out + [LoadSpan(segs[i])];
      i := i + 1;
    }
    assert segs[..i] == segs;
  }

  /** A time saved and read back is the time cut to the millisecond below. */
  lemma MillisRoundTrip(t: real)
    requires t >= 0.0
    ensures t - 0.001 < ToMillis(t) as real / 1000.0 <= t
  {
  }

  /** Saving a segment and loading it back gives its label and type, its
      times to within a millisecond (cut, never raised), and its ends in
      the same order. */
  lemma SaveLoadRoundTrip(sp: Span)
    requires 0.0 <= sp.start && 0.0 <= sp.end
    ensures var r := LoadSpan(SavedToRecord(SaveSpan(sp)));
      && r.name == sp.name && r.tagType == sp.tagType
      && sp.start - 0.001 < r.start <= sp.start
      && sp.end - 0.001 < r.end <= sp.end
      && (sp.start <= sp.end ==> r.start <= r.end)
  {
    MillisRoundTrip(sp.start);
    MillisRoundTrip(sp.end);
    if sp.start <= sp.end {
      SaveKeepsOrder(sp);
    }
  }

  /** The same for tagger_2's saved segments: the type comes back as the
      segment's type, "word" when it had none. */
  lemma SaveRecordLoadRoundTrip(s: SegmentRecord)
    requires 0.0 <= s.start && 0.0 <= s.end
    ensures var r := LoadSpan(SavedToRecord(SaveRecord(s)));
      && r.name == s.name && r.tagType == s.kind.GetOr(DefaultTag)
      && s.start - 0.001 < r.start <= s.start
      && s.end - 0.001 < r.end <= s.end
  {
    MillisRoundTrip(s.start);
    MillisRoundTrip(s.end);
  }

  /** Saving the waveform tagger's segments and loading the file back gives
      the same list, in order, each time within a millisecond. */
  lemma SaveLoadListRoundTrip(verse: Verse, spans: seq<Span>, audioFile: Option<string>)
    requires spans != []
    requires forall i :: 0 <= i < |spans| ==> 0.0 <= spans[i].start && 0.0 <= spans[i].end
    ensures var saved := SaveSpans(Some(verse), spans, audioFile).value;
      var back := LoadedSpans(seq(|saved.segments|, i requires 0 <= i < |saved.segments| => SavedToRecord(saved.segments[i])));
      && |back| == |spans|
      && forall i :: 0 <= i < |spans| ==>
           back[i].name == spans[i].name && back[i].tagType == spans[i].tagType
           && spans[i].start - 0.001 < back[i].start <= spans[i].start
           && spans[i].end - 0.001 < back[i].end <= spans[i].end
  {
    var saved := SaveSpans(Some(verse), spans, audioFile).value;
    forall i | 0 <= i < |spans|
      ensures var r := LoadSpan(SavedToRecord(saved.segments[i]));
        r.name == spans[i].name && r.tagType == spans[i].tagType
        && spans[i].start - 0.001 < r.start <= spans[i].start
        && spans[i].end - 0.001 < r.end <= spans[i].end
    {
      SaveLoadRoundTrip(spans[i]);
    }
  }

  /** As written, a segment saved at 0.5 s to 0.9 s comes back at 500 s to
      900 s, and one saved at 0.8 s to 1.5 s comes back with its end before
      its start. */
  lemma SaveLoadMisreadsShortTimes()
    ensures LoadSpanAsWritten(SavedToRecord(SaveSpan(Span(0.5, 0.9, "a", "word")))) == Span(500.0, 900.0, "a", "word")
    ensures var r := LoadSpanAsWritten(SavedToRecord(SaveSpan(Span(0.8, 1.5, "a", "word"))));
      r.start == 800.0 && r.end == 1.5 && r.start > r.end
  {
    assert ToMillis(0.5) == 500 && ToMillis(0.9) == 900;
    assert ToMillis(0.8) == 800 && ToMillis(1.5) == 1500;
  }

  /** From 1.001 s on, both ends save above 1000 and the loader as written
      reads them as the corrected one does. */
  lemma AsWrittenAgreesAboveOneSecond(sp: Span)
    requires sp.start >= 1.001 && sp.end >= 1.001
    ensures LoadSpanAsWritten(SavedToRecord(SaveSpan(sp))) == LoadSpan(SavedToRecord(SaveSpan(sp)))
  {
    assert ToMillis(sp.start) >= 1001 && ToMillis(sp.end) >= 1001;
  }
}
