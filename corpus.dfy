/** The JSON records both taggers read and write, as values.

    A verse object of the corpus carries a chapter and a shloka key, a
    `synonyms` dictionary from word to entry (kept as an ordered sequence,
    because migration walks it in insertion order; an absent dictionary is
    the empty sequence) and a `segments` list (absent is the empty list).
    A segment object carries `start`, `end`, `label`, and either a `type`
    (the in-memory shape of tagger_2) or a `tag` (the saved shape), and
    optionally the `word_ref` back-reference. */
module Corpus {
  import opened Wrappers

  /** A chapter or shloka value: the corpus uses numbers or strings. */
  datatype Key = Num(n: int) | Str(s: string)

  /** A legacy `timestamp` object; either field may be missing. */
  datatype Timestamp = Timestamp(start: Option<real>, end: Option<real>)

  datatype WordEntry = WordEntry(meaning: string, verseText: Option<string>, timestamp: Option<Timestamp>)

  datatype SegmentRecord = SegmentRecord(
    start: real,
    end: real,
    name: string,             // the `label` field (`label` is a Dafny keyword)
    kind: Option<string>,     // the `type` field
    tag: Option<string>,      // the `tag` field
    wordRef: Option<string>)  // the `word_ref` field

  datatype Verse = Verse(
    chapter: Option<Key>,
    shloka: Option<Key>,
    synonyms: seq<(string, WordEntry)>,
    segments: seq<SegmentRecord>)

  /** One element of the saved `segments` list. */
  datatype SavedSegment = SavedSegment(start: int, end: int, name: string, tag: string)

  /** The file written by either save routine. */
  datatype SavedVerse = SavedVerse(chapter: Key, shloka: Key, filename: string, segments: seq<SavedSegment>)

  /** A segment of waveform_tagger's list: the tuple `(start, end, label, tag_type)`. */
  datatype Span = Span(start: real, end: real, name: string, tagType: string)

  const DefaultTag: string := "word"

  /** `word in verse['synonyms']`. */
  predicate HasWord(synonyms: seq<(string, WordEntry)>, word: string) {
    exists i :: 0 <= i < |synonyms| && synonyms[i].0 == word
  }

  /** `verse['synonyms'][word]`: the entry of the first key equal to `word`. */
  function EntryOf(synonyms: seq<(string, WordEntry)>, word: string): (r: Option<WordEntry>)
    ensures r.Some? <==> HasWord(synonyms, word)
    ensures r.Some? ==> exists i :: 0 <= i < |synonyms| && synonyms[i] == (word, r.value)
    decreases |synonyms|
  {
    if synonyms == [] then None
    else if synonyms[0].0 == word then Some(synonyms[0].1)
    else
      var r := EntryOf(synonyms[1..], word);
      assert HasWord(synonyms, word) ==> HasWord(synonyms[1..], word) by {
        if HasWord(synonyms, word) {
          var i :| 0 <= i < |synonyms| && synonyms[i].0 == word;
          assert synonyms[1..][i - 1] == synonyms[i];
        }
      }
      assert r.Some? ==> exists i :: 0 <= i < |synonyms| && synonyms[i] == (word, r.value) by {
        if r.Some? {
          var i :| 0 <= i < |synonyms[1..]| && synonyms[1..][i] == (word, r.value);
          assert synonyms[i + 1] == (word, r.value);
        }
      }
      r
  }

  /** In a dictionary, the lookup of a key gives that key's entry. */
  lemma {:induction false} EntryOfKey(synonyms: seq<(string, WordEntry)>, i: int)
    requires DistinctWords(synonyms) && 0 <= i < |synonyms|
    ensures EntryOf(synonyms, synonyms[i].0) == Some(synonyms[i].1)
    decreases |synonyms|
  {
    if i > 0 {
      var rest := synonyms[1..];
      assert DistinctWords(rest) by {
        forall a, b | 0 <= a < b < |rest| ensures rest[a].0 != rest[b].0 {
          assert rest[a] == synonyms[a + 1] && rest[b] == synonyms[b + 1];
        }
      }
      assert rest[i - 1] == synonyms[i];
      EntryOfKey(rest, i - 1);
    }
  }

  /** The keys of a dictionary are distinct. */
  predicate DistinctWords(synonyms: seq<(string, WordEntry)>) {
    forall i, j :: 0 <= i < j < |synonyms| ==> synonyms[i].0 != synonyms[j].0
  }

  /** What a committed segment promises: it does not end before it starts, and it has a label. */
  predicate WellFormed(s: SegmentRecord) {
    s.start <= s.end && s.name != ""
  }
}
