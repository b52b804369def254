/** tagger_2's two commits, `tag_selected_region` (label = the selected
    word) and `tag_with_custom_label` (label = the stripped entry text):
    the segment each appends to the verse, or the reason it appends none. */
module Commit {
  import opened Wrappers
  import opened Strings
  import opened Corpus
  import opened Selection

  /** Why a commit appends nothing, in the order the checks are made. */
  datatype TagError =
    | NoContext         // no audio loaded, no verse displayed, or (for the word commit) no word selected
    | NoRegion          // an end of the selection is unset
    | InvalidSelection  // start >= end
    | WordNotFound      // the selected word is not a key of the verse's synonyms
    | EmptyLabel        // the custom label is blank after stripping

  /** A selection a commit accepts: both ends set, start strictly before end. */
  predicate Committable(sel: Sel) {
    Complete(sel) && sel.start.value < sel.end.value
  }

  /** `tag_selected_region`: the segment for the selected word. */
  function TagWord(audioLoaded: bool, verse: Option<Verse>, word: Option<string>, sel: Sel, kind: string)
    : (r: Result<SegmentRecord, TagError>)
    ensures r.Ok? <==>
      audioLoaded && verse.Some? && word.Some? && word.value != "" && Committable(sel)
      && HasWord(verse.value.synonyms, word.value)
    ensures r.Ok? ==>
      && r.value.start == sel.start.value && r.value.end == sel.end.value
      && r.value.name == word.value && r.value.wordRef == word
      && r.value.kind == Some(kind) && r.value.tag.None?
      && r.value.start < r.value.end && WellFormed(r.value)
    ensures r == Err(NoContext) <==> !(audioLoaded && verse.Some? && word.Some? && word.value != "")
  {
    if !audioLoaded || verse.None? || word.None? || word.value == "" then Err(NoContext)
    else if !Complete(sel) then Err(NoRegion)
    else if sel.start.value >= sel.end.value then Err(InvalidSelection)
    else if !HasWord(verse.value.synonyms, word.value) then Err(WordNotFound)
    else Ok(SegmentRecord(sel.start.value, sel.end.value, word.value, Some(kind), None, word))
  }

  /** `tag_with_custom_label`: the segment labelled with the entry text,
      stripped; an entry made only of whitespace is refused. */
  function TagCustom(audioLoaded: bool, verse: Option<Verse>, sel: Sel, entry: string, kind: string)
    : (r: Result<SegmentRecord, TagError>)
    ensures r.Ok? <==>
      audioLoaded && verse.Some? && Committable(sel)
      && exists i | 0 <= i < |entry| :: !IsSpace(entry[i])
    ensures r.Ok? ==>
      && r.value.start == sel.start.value && r.value.end == sel.end.value
      && r.value.name == Strip(entry) && r.value.wordRef.None?
      && r.value.kind == Some(kind) && r.value.tag.None?
      && r.value.start < r.value.end && WellFormed(r.value)
      && !IsSpace(r.value.name[0]) && !IsSpace(r.value.name[|r.value.name| - 1])
    ensures r == Err(EmptyLabel) ==> forall i :: 0 <= i < |entry| ==> IsSpace(entry[i])
  {
    StripEmptyIff(entry);
    if !audioLoaded || verse.None? then Err(NoContext)
    else if !Complete(sel) then Err(NoRegion)
    else if sel.start.value >= sel.end.value then Err(InvalidSelection)
    else if Strip(entry) == [] then Err(EmptyLabel)
    else Ok(SegmentRecord(sel.start.value, sel.end.value, Strip(entry), Some(kind), None, None))
  }

  /** `verse_data['segments'].append(segment)`. */
  function Append(v: Verse, seg: SegmentRecord): (w: Verse)
    ensures |w.segments| == |v.segments| + 1 && w.segments[..|v.segments|] == v.segments
    ensures w.segments[|v.segments|] == seg
    ensures w.chapter == v.chapter && w.shloka == v.shloka && w.synonyms == v.synonyms
  {
    v.(segments := v.segments + [seg])
  }

  /** When every segment of a verse is well formed, appending what either
      commit returns keeps it so. */
  lemma {:induction false} AppendKeepsWellFormed(v: Verse, seg: SegmentRecord)
    requires forall i :: 0 <= i < |v.segments| ==> WellFormed(v.segments[i])
    requires WellFormed(seg)
    ensures forall i :: 0 <= i < |Append(v, seg).segments| ==> WellFormed(Append(v, seg).segments[i])
  {
    var w := Append(v, seg);
    forall i | 0 <= i < |w.segments| ensures WellFormed(w.segments[i]) {
      if i < |v.segments| {
        assert w.segments[i] == w.segments[..|v.segments|][i];
      }
    }
  }
}
