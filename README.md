# Gita audio segment tagger, modelled in Dafny

This project models the annotation engine of two desktop tools that mark
time spans of recitation audio. Each span is tagged with a word or line of
a Bhagavad Gita verse.

- `AudacityInspiredGitaTagger` (tagger_2.py) keeps:
  - a selection of two optional ends, moved by marks, clicks, drags and releases;
  - a scrolling viewport with a time scale;
  - the verses of the corpus, each with a dictionary of words (some carrying a legacy `timestamp`) and a list of `segments`.

  Committing a selection appends a segment to the shown verse. Redrawing
  rebuilds the `tagged_regions` lookup. Saving migrates the legacy
  timestamps into segments and writes the shown verse with its times in
  milliseconds.
- `GitaWaveformTagger` (waveform_tagger.py) keeps:
  - two markers driven by sliders, and the ordered selection derived from them;
  - a list of `(start, end, label, tag_type)` segments, where entries can be added and deleted;
  - a play head.

  It saves the same file shape and loads it back.

The modules:

- **`Wrappers`**: `Option` and `Result`.
- **`Strings`**: whitespace stripping, and decimal digits with zero padding.
- **`TimeUnits`**: the time arithmetic shared by both tools:
  - Python's `int()` truncation;
  - the conversion to milliseconds for saving;
  - the legacy rule "above 1000 means milliseconds";
  - `format_time`.
- **`Corpus`**: the JSON records.
- **`AudioMatch`**:
  - the sort key `(\d+)\.(\d+)` over file names;
  - the lookup of a verse's audio file.
- **`Viewport`**: scrolling, the time scale, and following the play head.
- **`Selection`** and **`Markers`**: the selection of each tool.
- **`Commit`**: the two commits of tagger_2.
- **`Migration`**: `migrate_timestamps_to_segments`.
- **`Regions`**: `tagged_regions` as `draw_tagged_regions` builds it.
- **`Persistence`**: save and load.
- **`AudacityTagger`** and **`WaveformTagger`**: the two tool classes. Each is a class whose fields the handlers change in place; every handler states the whole new state in terms of the old.

Outside the model, and taken as parameters:

- The audio library. The decoded duration is a parameter of the loads. The mixer's `get_busy()` and `get_pos()` are parameters of the playback ticks.
- File dialogs. Whether a file was chosen is a parameter of the saves.
- Widget reads, such as the entry text, the type buttons and the list row picked.

Where the code and its documentation differ, the model follows the code:

- **`tagged_regions` keeps the last segment of a label, not the first.** Each drawable segment overwrites the entry of its label (`Regions.LastSegmentWins`).
- **waveform_tagger stops playback at the end of the selection during whole-file playback too.** `update_position` checks the stop whenever a selection exists (`WaveformTagger.WholeFilePlaybackStopsAtSelectionEnd`).
- **tagger_2's `on_word_select` uses the legacy timestamp as stored.** It copies the raw values into the selection, without the millisecond inference.
- **`jump_to_timestamp` converts one value on its own.** The inference there applies to the single value used, unlike the pair-wise rule in migration and in `draw_tagged_regions`.

## Model

| member | source | states |
|---|---|---|
| Strings.StripEmptyIff | tagger_2.py:1563-1567 | a custom label is refused exactly when the entry text is whitespace only |
| Strings.PaddedRoundTrip | tagger_2.py:1644-1647 | a zero-padded field has the requested width, only digits, and reads back as the number |
| TimeUnits.Trunc | tagger_2.py:1638-1642 | `int()` on a float truncates toward zero: within one of the value, on the side of zero |
| TimeUnits.ToMillis | tagger_2.py:1688-1689 | a saved time is the whole number of milliseconds at or below the time |
| TimeUnits.ToMillisMonotone | tagger_2.py:1688-1689 | saving keeps the order of a segment's two ends |
| TimeUnits.LegacyPairToSeconds | tagger_2.py:1726-1728 | the unit is decided on the start and the end follows that decision: both divided by 1000 or both kept |
| TimeUnits.PairConversionKeepsOrder | tagger_2.py:1129-1132 | converting a legacy pair with one decision keeps start <= end |
| TimeUnits.PerValueConversionCanInvert | waveform_tagger.py:1053-1054 | converting each value on its own can invert a pair (800 and 1500 become 800 and 1.5) |
| TimeUnits.ClockReadsTime | tagger_2.py:1635-1647 | minutes, seconds below 60 and milliseconds below 1000 give the time rounded down to the millisecond |
| TimeUnits.ClockVariantsAgree | waveform_tagger.py:1179-1196 | waveform_tagger's `//` and `%` on the time give the same clock as tagger_2's `int()` first exactly when the time is not negative or is a whole number of seconds; on any other negative time the seconds differ |
| TimeUnits.FormatTimeReadsBack | tagger_2.py:1635-1647 | under 100 minutes the text is `MM:SS.mmm`, and its fields read back as the time to the millisecond |
| Corpus.EntryOf | tagger_2.py:805-806 | a word's entry exists exactly when the word is a key of the dictionary, and it is one of that key's entries |
| Corpus.EntryOfKey | tagger_2.py:805-806 | in a dictionary, looking up a key gives that key's entry |
| AudioMatch.BasenameIsLastComponent | tagger_2.py:492 | the base name has no `/`, and it is the end of the path after the last `/` |
| AudioMatch.SearchFindsLeftmost | tagger_2.py:493 | the search succeeds exactly when some position matches `\d+\.\d+`, and it reports the leftmost match |
| AudioMatch.SearchReportsFirst | tagger_2.py:493 | the first matching position is the one whose groups are returned |
| AudioMatch.UnmatchedSortsLast | tagger_2.py:497 | a file name with no match gets the key (999, 999) |
| AudioMatch.ConventionalNameKey | tagger_2.py:490-498 | a name such as `prefix2.47suffix` sorts under (2, 47) |
| AudioMatch.SubstringMatchConfusesVerses | tagger_2.py:770-774 | as written, verse 2.4 is matched by `2.47.mp3`, whose own key is (2, 47) |
| AudioMatch.BoundedMatchReadsExactNumbers | tagger_2.py:770-774 | where the corrected match accepts a name, the name's numbers at that place are exactly the verse's |
| AudioMatch.ConventionalNameMatches | tagger_2.py:770-774 | a name carrying `chapter.verse` between non-digits is accepted by the corrected match |
| AudioMatch.FindCorrespondingAudio | tagger_2.py:759-789 | no lookup without a chapter and a verse; otherwise the result is the first file that matches, or none when no file does |
| Viewport.ScrollViewStart | tagger_2.py:986-997 | a scrollbar value gives a view start the scrollbar can reach, 0 at 0 and the furthest at 100 |
| Viewport.ScrollMonotone | tagger_2.py:993 | moving the scrollbar right never moves the view left |
| Viewport.TickInterval | tagger_2.py:1018-1027 | the tick spacing is one of the five steps, and up to 300 s of view gets at most 60 ticks |
| Viewport.TickIntervalMonotone | tagger_2.py:1018-1027 | a wider view never gets finer ticks |
| Viewport.FirstTick | tagger_2.py:1030 | the first tick is at or after the view start, less than one interval after it |
| Viewport.FirstTickIsLeast | tagger_2.py:1030 | the first tick is the least multiple of the interval at or after the view start |
| Viewport.TickColumn | tagger_2.py:1039 | a tick in view is drawn on a column of the canvas |
| Viewport.TimeScale | tagger_2.py:999-1046 | no ticks on a canvas not yet laid out; otherwise tick i sits at first + i·interval inside the view, with milliseconds shown when the interval is under a second, and the ticks run up to the visible end |
| Viewport.AutoScrollStart | tagger_2.py:1620-1627 | past 90% of the window the view moves on, keeps a reachable start and keeps the play head in view; before that it stays |
| Viewport.JumpViewStart | tagger_2.py:1444-1448 | a time outside the window brings the view to it, with a reachable start; a time in view leaves the view as it was |
| Viewport.ScrollWriteBack | tagger_2.py:911-914 | as written, the redraw's scrollbar write-back runs the scroll command, which gives a reachable view start no later than the old one |
| Viewport.WriteBacks | tagger_2.py:911-914 | any number of nested write-backs keeps the view start reachable |
| Viewport.WriteBackMovesView | tagger_2.py:911-914 | a write-back scales the view start by (duration − window)/duration, so with a window and a view start past 0 it moves the view left |
| Viewport.WriteBacksNoHigher | tagger_2.py:911-914 | no number of nested write-backs moves the view right |
| Viewport.JumpUndoneByWriteBacks | tagger_2.py:1444-1448 | with 100 s of audio and a 10 s window, jumping to 50 s puts the view at 49 s, and two or more write-backs leave 50 s out of view |
| Selection.MarkStart | tagger_2.py:1460-1475 | the start becomes the play head and the pair is in order; an end not before it is kept, any other end moves onto it |
| Selection.MarkEnd | tagger_2.py:1477-1492 | the end becomes the play head and the pair is in order; a start not after it is kept, any other start moves onto it |
| Selection.Click | tagger_2.py:919-939 | a click off the waveform changes nothing; a shift-click with a start set moves only the end; any other click starts an empty selection there |
| Selection.Release | tagger_2.py:941-962 | with a start set, the release gives the two times in order (the same two values) |
| Selection.Drag | tagger_2.py:964-984 | with button 1 held the end follows the pointer, in no particular order; otherwise nothing changes |
| Selection.DragLeavesInvertedUntilRelease | tagger_2.py:964-984 | a drag left of the start leaves an inverted pair, and the release puts it in order |
| Selection.ShiftClickCanInvert | tagger_2.py:928-931 | a shift-click before the start inverts the pair |
| Selection.GesturesKeepOrder | tagger_2.py:1460-1492 | an ordered selection stays ordered through any sequence of marks and releases |
| Markers.UpdateSelection | waveform_tagger.py:343-356 | with both markers set the selection is them in order; with either missing it is unchanged |
| Markers.StartSliderChange | waveform_tagger.py:250-264 | the start marker becomes the value; an end before it is raised to it, any other end is kept |
| Markers.EndSliderChange | waveform_tagger.py:266-280 | the end marker becomes the value; a start after it is lowered to it, any other start is kept |
| Markers.SliderChangesIdempotent | waveform_tagger.py:250-280 | moving a slider twice to one value is moving it once, and the other slider's `set` calling back into its handler changes nothing, for the start handler's `end_slider.set` and the end handler's `start_slider.set` alike |
| Commit.TagWord | tagger_2.py:1501-1545 | a segment is made exactly when there is audio, a verse, a selected word in its dictionary and a selection with start < end; the segment has the selection's times, the word as label and reference, and the chosen type; the context error is reported first |
| Commit.TagCustom | tagger_2.py:1547-1596 | a segment is made exactly when there is audio, a verse, a selection with start < end and an entry that is not blank; its label is the stripped entry |
| Commit.Append | tagger_2.py:1537 | the segment is appended after the old ones, and nothing else of the verse changes |
| Commit.AppendKeepsWellFormed | tagger_2.py:1537 | appending a committed segment keeps every segment ordered and labelled |
| Migration.LegacySegment | tagger_2.py:1720-1737 | a word with both ends of its timestamp gives a `word` segment that it labels and references, with its times read by the pair rule |
| Migration.MigrateVerse | tagger_2.py:1704-1746 | the old segments are kept as a prefix, and the chapter, verse and dictionary are unchanged |
| Migration.MigratedSound | tagger_2.py:1713-1739 | every appended segment comes from a word with a complete timestamp, and its label was not already present |
| Migration.MigratedComplete | tagger_2.py:1719-1739 | every word with a complete timestamp and a new label gets its segment |
| Migration.MigratedNothing | tagger_2.py:1719-1739 | when no word qualifies, nothing is appended |
| Migration.MigrateIdempotent | tagger_2.py:1704-1746 | migrating a migrated verse changes nothing |
| Migration.MigratedDistinct | tagger_2.py:1719-1739 | the appended labels are distinct |
| Migration.MigrateKeepsLabelsDistinct | tagger_2.py:1704-1746 | a verse whose labels are distinct keeps them distinct |
| Migration.MigrateEntry | tagger_2.py:1706-1746 | the loop over one verse gives the migrated verse |
| Regions.LegacyRegion | tagger_2.py:1123-1132 | a legacy timestamp gets a region only with both ends set and different, read by the pair rule |
| Regions.PassOkPrefix | tagger_2.py:1079-1092 | a segments loop that ran to its end also did so on every prefix |
| Regions.LastSegmentWins | tagger_2.py:1079-1088 | after a full segments loop a drawable segment's label maps to the region of the last drawable segment with that label |
| Regions.SegmentRegionsFromSegments | tagger_2.py:1079-1088 | only labels of drawable segments get regions from the segments loop |
| Regions.LegacyKeeps | tagger_2.py:1134-1136 | the legacy loop never overrides an existing region |
| Regions.LegacyFills | tagger_2.py:1122-1139 | the legacy loop gives a word without a region its timestamp's region |
| Regions.LegacyAbsent | tagger_2.py:1122-1139 | a word that is not a key gets no region from the legacy loop |
| Regions.SegmentsWinOverLegacy | tagger_2.py:1048-1166 | after a redraw, a segment's region beats the legacy timestamp of a word with the same name |
| Regions.AppendedSegmentIsDrawn | tagger_2.py:1048-1166 | after a commit of a known type, the redraw gives the new label the new region |
| Regions.LegacyFillsUnclaimedWord | tagger_2.py:1048-1166 | after a redraw, a word no segment claims has its legacy region |
| Regions.UnknownTypeStopsDrawing | tagger_2.py:1088-1092 | a segment of a type without a colour is stored, then the `KeyError` stops the later segments and every legacy timestamp |
| Regions.StoppedPassIsFinal | tagger_2.py:1092 | once the segments loop has stopped, the remaining segments change nothing |
| Regions.CollectRegions | tagger_2.py:1048-1166 | the two loops build exactly the redraw's `tagged_regions` |
| Persistence.SavedFilename | tagger_2.py:1680 | the saved file name is the audio's base name, or "" without audio |
| Persistence.SaveRecord | tagger_2.py:1685-1692 | a saved segment keeps its label, takes its type (`word` by default) as the tag, and stores each time as the milliseconds at or below it |
| Persistence.SaveSpan | waveform_tagger.py:1153-1159 | the same for a waveform_tagger segment |
| Persistence.SaveVerse | tagger_2.py:1676-1693 | the saved verse has the chapter and verse keys ("" when absent), the file name, and every segment in order |
| Persistence.SaveSpans | waveform_tagger.py:1134-1177 | nothing is saved without a verse or without segments; otherwise the keys, the file name and every segment, in order |
| Persistence.SerializeRecords | tagger_2.py:1685-1692 | the loop gives every saved segment in order |
| Persistence.SerializeSpans | waveform_tagger.py:1153-1159 | the loop gives every saved segment in order |
| Persistence.SaveKeepsOrder | waveform_tagger.py:1155-1156 | saving keeps start <= end |
| Persistence.SavedToRecord | waveform_tagger.py:1050-1058 | the loader sees the saved integers, the label and the type under `tag` |
| Persistence.LoadSpanAsWritten | waveform_tagger.py:1050-1058 | as written, each time is divided by 1000 on its own when above 1000, and the type defaults to `word` |
| Persistence.LoadSpan | waveform_tagger.py:1050-1058 | as intended, a record carrying a `tag` is read as milliseconds, keeping the order of its ends; a record without one is read as written, each time on its own |
| Persistence.LoadSpans | waveform_tagger.py:1050-1058 | the loop gives every loaded segment in order |
| Persistence.MillisRoundTrip | tagger_2.py:1688-1689 | a time saved and read back loses less than a millisecond and is never raised |
| Persistence.SaveLoadRoundTrip | waveform_tagger.py:1153-1159 | saving and loading a segment keeps its label and type, keeps each time to within a millisecond, and keeps the ends in order |
| Persistence.SaveRecordLoadRoundTrip | tagger_2.py:1685-1692 | the same for a tagger_2 segment, whose type comes back as its tag |
| Persistence.SaveLoadListRoundTrip | waveform_tagger.py:1134-1177 | saving the segment list and loading the file gives the same list in order, each time within a millisecond |
| Persistence.SaveLoadMisreadsShortTimes | waveform_tagger.py:1053-1054 | as written, 0.5–0.9 s comes back as 500–900 s, and 0.8–1.5 s comes back inverted |
| Persistence.AsWrittenAgreesAboveOneSecond | waveform_tagger.py:1053-1054 | from 1.001 s on, the loader as written agrees with the corrected one |
| AudacityTagger.Redrawn | tagger_2.py:849-917 | a redraw changes only `tagged_regions`, which becomes the shown verse's regions when audio is loaded |
| AudacityTagger.MigratedAllIdempotent | tagger_2.py:1704-1746 | migrating every verse a second time changes no verse, so a second save migrates nothing further |
| AudacityTagger.Tagger.constructor | tagger_2.py:18-57 | the start-up state: no audio, a 10 s window at 0, a cleared selection, no verse shown |
| AudacityTagger.LoadsOneFile | tagger_2.py:770-774 | at most one file is the one a verse's lookup picks |
| AudacityTagger.Tagger.Redraw | tagger_2.py:902 | the state after the redraw, with the invariant kept |
| AudacityTagger.Tagger.LoadAudioFile | tagger_2.py:566-597 | a failed decode changes nothing; on success the file and its duration are set (`Loaded`), playback stops, the play head and the view go to 0, the window is 10 s or the whole file, and the regions are redrawn |
| AudacityTagger.MixerRejectBreaksView | tagger_2.py:568-597 | when the decoder reads a 5 s file but the mixer rejects it, with a 10 s window shown at 50 s, the state kept has a window wider than the audio and a view start out of range |
| AudacityTagger.Tagger.ShowVerse | tagger_2.py:714-789 | the verse is shown; when the first file matching its chapter and verse is not the one loaded, that file is loaded as `LoadAudioFile` loads it (a failed decode keeps the old audio); the whole new state is stated either way, regions redrawn |
| AudacityTagger.Tagger.OnWordSelect | tagger_2.py:791-847 | the word becomes current; a complete legacy timestamp becomes the selection as stored |
| AudacityTagger.Tagger.MarkSegmentStart | tagger_2.py:1460-1475 | with audio loaded, the selection after `MarkStart` at the play head, ordered |
| AudacityTagger.Tagger.MarkSegmentEnd | tagger_2.py:1477-1492 | with audio loaded, the selection after `MarkEnd` at the play head, ordered |
| AudacityTagger.Tagger.ClearSelection | tagger_2.py:1494-1499 | both ends cleared, with a redraw when there was something to clear |
| AudacityTagger.Tagger.OnWaveformClick | tagger_2.py:919-939 | the selection after `Click`; no change without audio or off the waveform |
| AudacityTagger.Tagger.OnWaveformRelease | tagger_2.py:941-962 | the selection after `Release`, ordered |
| AudacityTagger.Tagger.OnWaveformMotion | tagger_2.py:964-984 | the selection after `Drag`, with no redraw |
| AudacityTagger.Tagger.TagSelectedRegion | tagger_2.py:1501-1545 | the result of `TagWord`; on success exactly that segment is appended to the shown verse; on refusal nothing changes |
| AudacityTagger.Tagger.TagWithCustomLabel | tagger_2.py:1547-1596 | the result of `TagCustom`; on success exactly that segment is appended to the shown verse; on refusal nothing changes |
| AudacityTagger.Tagger.MigrateTimestampsToSegments | tagger_2.py:1704-1746 | every verse is migrated, and nothing else changes |
| AudacityTagger.Tagger.SaveTaggedData | tagger_2.py:1649-1702 | with a verse shown and a file chosen, every verse is migrated and the shown verse's saved form is produced; otherwise nothing |
| AudacityTagger.Tagger.OnWaveformScroll | tagger_2.py:986-997 | the view start follows the scrollbar, and the regions are redrawn |
| AudacityTagger.Tagger.JumpToTimestamp | tagger_2.py:1417-1458 | the play head goes to the converted start or end (as asked) of the word's timestamp; the view moves only when that time is out of view, and then it brings the time into view |
| AudacityTagger.Tagger.TogglePlay | tagger_2.py:1279-1307 | pause, or play from the play head (from 0 within 0.1 s of the end) |
| AudacityTagger.Tagger.StopPlayback | tagger_2.py:1309-1328 | playback stops and the play head returns to 0 |
| AudacityTagger.Tagger.PlaySelection | tagger_2.py:1330-1364 | a selection with start < end is played from its start, with the stop scheduled after its length in milliseconds; otherwise nothing |
| AudacityTagger.Tagger.PlayTaggedSegment | tagger_2.py:1383-1415 | the word's timestamp, read by the pair rule, becomes the selection and the regions are redrawn; it is played, with the stop scheduled after its length in milliseconds, exactly when its start is before its end and the redraw did not raise `KeyError`; no other field changes |
| AudacityTagger.Tagger.StopAtSelectionEnd | tagger_2.py:1366-1381 | playback stops on the selection's end exactly when the play head is within 0.1 s of it |
| AudacityTagger.Tagger.UpdatePlaybackPosition | tagger_2.py:1598-1633 | the play head is the playback start plus the elapsed time; past 90% of the window the view scrolls and keeps it in view; the next tick is scheduled unless that scroll's redraw raised `KeyError` |
| WaveformTagger.Added | waveform_tagger.py:805-828 | with a selection and a label, the segment is appended and the selection cleared; otherwise nothing |
| WaveformTagger.Cleared | waveform_tagger.py:785-803 | no selection, no markers, sliders hidden, segments kept |
| WaveformTagger.Without | waveform_tagger.py:840-841 | the list without element i, the others in order |
| WaveformTagger.WithoutInsert | waveform_tagger.py:830-849 | putting the deleted element back gives the list again |
| WaveformTagger.AddThenDeleteRestores | waveform_tagger.py:805-849 | deleting the segment just added restores the list |
| WaveformTagger.DeleteRemovesOne | waveform_tagger.py:830-849 | deleting removes exactly one occurrence of the picked segment |
| WaveformTagger.TickPosition | waveform_tagger.py:698-729 | the play head after a tick is the elapsed time plus the playback start, never past the end |
| WaveformTagger.WholeFilePlaybackStopsAtSelectionEnd | waveform_tagger.py:721-724 | whole-file playback stops at a stale selection's end |
| WaveformTagger.Tagger.constructor | waveform_tagger.py:13-50 | the start-up state: no audio, no segments, type `word` |
| WaveformTagger.Tagger.UpdateSelection | waveform_tagger.py:343-356 | the selection after `Markers.UpdateSelection`, nothing else |
| WaveformTagger.Tagger.MarkSegmentStart | waveform_tagger.py:680-687 | a hidden start slider is shown and the start marker set to the play head |
| WaveformTagger.Tagger.MarkSegmentEnd | waveform_tagger.py:689-696 | a hidden end slider is shown and the end marker set to the play head |
| WaveformTagger.Tagger.SetStartToCurrent | waveform_tagger.py:234-240 | the start marker moves to the play head, and the start slider's command then raises an end before it (`StartSlid`); the markers are in order and the selection follows them |
| WaveformTagger.Tagger.SetEndToCurrent | waveform_tagger.py:242-248 | the end marker moves to the play head, and the end slider's command then lowers a start after it (`EndSlid`); the markers are in order and the selection follows them |
| WaveformTagger.Tagger.OnStartSliderChange | waveform_tagger.py:250-264 | the markers stay in order and the selection starts at the value; raising the end runs the end slider's command, which changes nothing more |
| WaveformTagger.Tagger.OnEndSliderChange | waveform_tagger.py:266-280 | the markers stay in order and the selection ends at the value; lowering the start runs the start slider's command, which changes nothing more |
| WaveformTagger.Tagger.ClearSelection | waveform_tagger.py:785-803 | the state after `Cleared` |
| WaveformTagger.Tagger.AddSegment | waveform_tagger.py:805-828 | the state after `Added`; the old segments are kept as a prefix |
| WaveformTagger.Tagger.SetCustomLabel | waveform_tagger.py:464-473 | a label that is not blank once stripped becomes current, and it is added at once when there is a selection |
| WaveformTagger.Tagger.DeleteSegment | waveform_tagger.py:830-849 | the picked segment is removed and the others keep their order; without a valid pick nothing changes |
| WaveformTagger.Tagger.OnSegmentSelect | waveform_tagger.py:868-904 | the picked segment's times become the selection, then each visible slider's command runs with its end of the segment (`SegmentSelected`); a cleared pick only clears the index |
| WaveformTagger.SelectShowsSegment | waveform_tagger.py:868-904 | for an ordered segment, with markers set only while their slider is shown, picking it makes its times the selection and the shown sliders' markers, and nothing else |
| WaveformTagger.Tagger.ToggleTagType | waveform_tagger.py:972-980 | `word` becomes `line` and anything else becomes `word` |
| WaveformTagger.Tagger.OnTagTypeChange | waveform_tagger.py:402-405 | the type becomes the choice |
| WaveformTagger.Tagger.LoadAudioFile | waveform_tagger.py:490-515 | the file name is always set; on success the duration is set, the play head goes to 0, the position slider's command restarts a running playback at 0, and the segment list is emptied (`AudioLoaded`) |
| WaveformTagger.Tagger.ShowVerseSegments | waveform_tagger.py:1049-1065 | the verse, its chapter and verse when present, and its segments read by the corrected loader; a verse without segments empties the list |
| WaveformTagger.Tagger.DisplayVerse | waveform_tagger.py:1021-1083 | the verse is shown; its audio file, when one is found, is loaded as `load_audio_file` loads it; the verse's segments are the list afterwards (`Displayed`, corrected, see Findings) |
| WaveformTagger.DisplayShowsVerse | waveform_tagger.py:1021-1083 | the corrected display always ends with the verse and its segments in order; with no file loaded it agrees with the display as written; with a file loaded the rest of the state is that load's |
| WaveformTagger.DisplayWipesSegments | waveform_tagger.py:1066-1083 | as written, a verse with segments whose audio file is found and decodes is left with an empty segment list, where the corrected display keeps all of them |
| WaveformTagger.Tagger.SaveTaggedData | waveform_tagger.py:1134-1177 | with a file chosen the result is the saved form of the verse and its segments, and nothing changes |
| WaveformTagger.Tagger.UpdatePosition | waveform_tagger.py:698-729 | while playing, the play head follows the mixer; the position slider's command runs with the clamped share of the audio (`PositionSlid`); playback stops at a selection's end |
| WaveformTagger.ScaleValue | waveform_tagger.py:719 | the value a scale holds after `set` lies in its range, and is the value asked for when that lies in the range |
| WaveformTagger.TickRebasesPlayback | waveform_tagger.py:716-720 | with audio of some length, a tick moves the play head and restarts playback from it: the slider's command reads the same position back and sets the playback start to it |
| WaveformTagger.Tagger.TogglePlay | waveform_tagger.py:731-750 | pause, or play the whole file from the play head |
| WaveformTagger.Tagger.PlaySelection | waveform_tagger.py:752-777 | play from the selection's start |
| WaveformTagger.Tagger.StopPlayback | waveform_tagger.py:779-783 | playback stops and the play head stays |
| WaveformTagger.Tagger.JumpBack | waveform_tagger.py:906-926 | the play head goes back one second, not before 0 |
| WaveformTagger.Tagger.JumpForward | waveform_tagger.py:928-948 | the play head goes on one second, not past the end |
| WaveformTagger.Tagger.OnPositionSliderChange | waveform_tagger.py:282-301 | the play head goes to that share of the audio, and a running playback restarts there |

## Left out

- Rendering is outside the model: the Tk widgets, matplotlib drawing (colours, patches, texts) and the status bar. What rendering decides about the state, `tagged_regions`, is modelled.
- Audio decoding and playback (librosa, pygame) are outside the model. Durations, `get_busy()` and `get_pos()` are parameters, and a failed decode is `None`. The mixer's refusal of a file the decoder read is not modelled in tagger_2 (see `AudacityTagger.Tagger.LoadAudioFile` below).
- File and JSON I/O are outside the model: reading the corpus, the directory listing, and writing the saved file. The saves return the saved value.
- `root.after` scheduling is outside the model. Each scheduled call is a separate method call, and `PlaySelection` returns the delay.
- chage_name.py, a one-off file renamer, is not part of this model.
- waveform_tagger's `draw_time_markers` only draws, so it is left out.
- The zoom handlers are bound in the source but never defined, so they are left out.
- Segment records always carry `start`, `end` and `label`. tagger_2 skips a record missing one of them (tagger_2.py:1081-1086) and waveform_tagger raises `KeyError` on it (waveform_tagger.py:1053-1055); neither is modelled.
- TimeUnits.ClockVariantsAgree: times are exact reals, not IEEE doubles, so float rounding in `//`, `%` and `* 1000` is not modelled.
- A `KeyError` from `draw_tagged_regions` (`Regions.SegmentPass`) ends the handler that redrew. Only `PlayTaggedSegment` and `UpdatePlaybackPosition` do anything with the state after the redraw, and both stop there (`AudacityTagger.DrawCompletes`); elsewhere the redraw is the handler's last state change.
- A scale's `set` runs its command. The model runs it in waveform_tagger's slider handlers (`StartSlid`, `EndSlid`, `PositionSlid`). Where the call would change nothing more, `Markers.SliderChangesIdempotent` shows why.
- The sliders' ranges are fixed when they are created; the model clamps only the position slider (0 to 100), and takes the start and end sliders' values as given.
- AudacityTagger.Redrawn: the scrollbar write-back at the end of `plot_waveform` (tagger_2.py:911-914) is not modelled. As written it re-runs `on_waveform_scroll`, which redraws and writes back again until the recursion limit; `Viewport.ScrollWriteBack` models one such step (see Findings).
- AudacityTagger.Tagger.Redraw: does not model the scrollbar write-back, for the same reason.
- AudacityTagger.Tagger.OnWaveformScroll: does not model the write-back of its own redraw, which calls the handler again.
- AudacityTagger.Tagger.JumpToTimestamp: does not model the write-back after its redraw, which moves the view left of the jump target (`Viewport.JumpUndoneByWriteBacks`).
- AudacityTagger.Tagger.UpdatePlaybackPosition: does not model the write-back after the auto-scroll's redraw.
- AudacityTagger.Tagger.LoadAudioFile: only two outcomes are modelled, a failed decode (nothing changes) and a full load. When the decoder reads the file but `pygame.mixer.music.load` (tagger_2.py:575) raises, the `except` at 595-597 keeps the new file and duration with the old playback flag, play head, view and window, and does no redraw (`AudacityTagger.MixerRejected`). That state can break the invariant `Valid()` (`AudacityTagger.MixerRejectBreaksView`), so the model does not reach it.
- AudacityTagger.Tagger.ShowVerse: loads through `LoadAudioFile`, so the mixer-rejects-after-decode state is not reached here either.
- AudacityTagger.Tagger.LoadAudioFile: after a successful load, `extract_chapter_verse_from_filename` (tagger_2.py:599-611) goes to the verse named by the file's `(\d+)\.(\d+)`, which changes the current verse; that second navigation is a separate `ShowVerse` call.
- WaveformTagger.Tagger.LoadAudioFile: after a successful load, `extract_from_audio_filename` (waveform_tagger.py:1116-1132) goes to the verse named by `Bhagavad-gita N.M` in the file name, and its display finds and loads the same file again, recursing until the `except` at waveform_tagger.py:530 catches the recursion error; that re-navigation is not modelled.
- WaveformTagger.Tagger.DisplayVerse: the directory listing of `find_matching_audio` is I/O; the file it picks is the `matched` parameter. The re-navigation of a `Bhagavad-gita N.M` file name after its load is not modelled.
- An empty verse dictionary is falsy in Python. The model treats a shown verse as present.
- Chapter and verse numbers are read as ASCII digits only. Python's `\d` also accepts other Unicode digits.
- Path handling is POSIX only: `Basename` splits on `/`.
- The name lookups are left out: `extract_chapter_verse_from_filename`, `extract_from_audio_filename` and the lookup step of both `go_to_verse`. The listing step of `find_matching_audio` is a parameter.
- `load_gita_data_file` is left out, as are `show_all_tags`, `load_previous_audio` and `load_next_audio`.
- Loading an audio directory is left out. It is file-listing I/O sorted by `AudioMatch.SortKey`.
- WaveformTagger.Tagger.TogglePlay: the immediate first `update_position` after `toggle_play` and `play_selection` is a separate `UpdatePosition` call.
- WaveformTagger.Tagger.PlaySelection: the position is not set; it moves on the next tick.
- WaveformTagger.Tagger.OnSegmentSelect: the label entry and type box it fills are widget state and are not modelled.
- The label the tree row shows is not modelled either.
- WaveformTagger.Tagger.LoadAudioFile: the mixer error that a play after a failed load would raise is not modelled.
- AudioMatch.FindCorrespondingAudio uses the corrected, bounded name match (see Findings). `AudioMatch.NameMatchesAsWritten` is the substring test as written.
- WaveformTagger.Tagger.DisplayVerse uses the corrected loader and shows the segments after the audio load (see Findings). `Persistence.LoadSpanAsWritten` and `WaveformTagger.DisplayedAsWritten` are the code as written.

## Findings

| source | as written | input that shows it | evidently intended | confidence | as-written member | corrected member |
|---|---|---|---|---|---|---|
| waveform_tagger.py:1050-1058 | each loaded time is divided by 1000 only when it is above 1000, but the save always writes milliseconds | a segment saved at 0.5–0.9 s reloads as 500–900 s; one at 0.8–1.5 s reloads as 800–1.5 s, inverted | saved times are read back as milliseconds | not executed | Persistence.LoadSpanAsWritten (Persistence.SaveLoadMisreadsShortTimes) | Persistence.LoadSpan (Persistence.SaveLoadRoundTrip, Persistence.SaveLoadListRoundTrip) |
| tagger_2.py:770-774 | a file matches a verse when `chapter.verse` occurs anywhere in its name | verse 2.4 matches `2.47.mp3` | a file matches only when the numbers are exactly the verse's (no digit on either side) | not executed | AudioMatch.NameMatchesAsWritten (AudioMatch.SubstringMatchConfusesVerses) | AudioMatch.NameMatches (AudioMatch.BoundedMatchReadsExactNumbers, AudioMatch.ConventionalNameMatches) |
| tagger_2.py:911-914 | each redraw sets the scrollbar to the view start as a share of the whole duration; the scrollbar's command reads its value as a share of the scrollable part and redraws, which sets it again | 100 s of audio, a 10 s window, a jump to 50 s: the view goes to 49 s, then 44.1 s, then 39.69 s and on, so 50 s is out of view after two write-backs; the chain ends only at the recursion limit | the scrollbar shows where the view is without moving it | not executed | Viewport.ScrollWriteBack (Viewport.WriteBackMovesView, Viewport.JumpUndoneByWriteBacks) | AudacityTagger.Redrawn (Viewport.JumpViewStart, Viewport.AutoScrollStart) |
| waveform_tagger.py:1049-1083 | `display_verse` loads the verse's segments and then the matching audio, whose `load_audio_file` empties the segment list (waveform_tagger.py:513) | a verse 2.47 with saved segments and a file `2.47.mp3` in the audio directory that decodes: the list is empty afterwards | a verse is shown with its saved segments and its audio | not executed | WaveformTagger.DisplayedAsWritten (WaveformTagger.DisplayWipesSegments) | WaveformTagger.Tagger.DisplayVerse (WaveformTagger.DisplayShowsVerse) |
