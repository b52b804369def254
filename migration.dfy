/** tagger_2's `migrate_timestamps_to_segments`: every word of a verse whose
    legacy `timestamp` has both ends becomes a `word` segment, unless a
    segment with that label was already in the verse before the pass. */
module Migration {
  import opened Wrappers
  import opened Corpus
  import opened TimeUnits

  /** `existing_labels`: the labels of a list of segments. */
  function Labels(segs: seq<SegmentRecord>): set<string> {
    set i | 0 <= i < |segs| :: segs[i].name
  }

  /** No two segments share a label. */
  predicate DistinctLabels(segs: seq<SegmentRecord>) {
    forall j, k :: 0 <= j < k < |segs| ==> segs[j].name != segs[k].name
  }

  /** The segment a legacy timestamp becomes, when both its ends are set:
      labelled and referenced by the word, of type `word`, its times read
      with the unit inference. */
  function LegacySegment(word: string, e: WordEntry): (r: Option<SegmentRecord>)
    ensures r.Some? <==> e.timestamp.Some? && e.timestamp.value.start.Some? && e.timestamp.value.end.Some?
    ensures r.Some? ==>
      && r.value.name == word && r.value.wordRef == Some(word)
      && r.value.kind == Some(DefaultTag) && r.value.tag.None?
      && (r.value.start, r.value.end) == LegacyPairToSeconds(e.timestamp.value.start.value, e.timestamp.value.end.value)
  {
    match e.timestamp
    case Some(Timestamp(Some(s), Some(t))) =>
      var p := LegacyPairToSeconds(s, t);
      Some(SegmentRecord(p.0, p.1, word, Some(DefaultTag), None, Some(word)))
    case _ => None
  }

  /** The segments the pass appends for the words of `syn`, in dictionary
      order, skipping the labels in `existing`. */
  function Migrated(syn: seq<(string, WordEntry)>, existing: set<string>): seq<SegmentRecord>
    decreases |syn|
  {
    if syn == [] then []
    else
      var w := syn[|syn| - 1];
      Migrated(syn[..|syn| - 1], existing)
      + (if w.0 !in existing && LegacySegment(w.0, w.1).Some? then [LegacySegment(w.0, w.1).value] else [])
  }

  /** One verse after the pass. */
  function MigrateVerse(v: Verse): (r: Verse)
    ensures |r.segments| >= |v.segments| && r.segments[..|v.segments|] == v.segments
    ensures r.chapter == v.chapter && r.shloka == v.shloka && r.synonyms == v.synonyms
  {
    v.(segments := v.segments + Migrated(v.synonyms, Labels(v.segments)))
  }

  /** Every appended segment comes from a word of the dictionary with a
      complete timestamp, and carries a label that was not there before. */
  lemma {:induction false} MigratedSound(syn: seq<(string, WordEntry)>, existing: set<string>)
    ensures forall s :: s in Migrated(syn, existing) ==>
      s.name !in existing && exists i :: 0 <= i < |syn| && LegacySegment(syn[i].0, syn[i].1) == Some(s)
    decreases |syn|
  {
    if syn != [] {
      var p := syn[..|syn| - 1];
      MigratedSound(p, existing);
      forall s | s in Migrated(syn, existing)
        ensures s.name !in existing && exists i :: 0 <= i < |syn| && LegacySegment(syn[i].0, syn[i].1) == Some(s)
      {
        if s in Migrated(p, existing) {
          var i :| 0 <= i < |p| && LegacySegment(p[i].0, p[i].1) == Some(s);
          assert syn[i] == p[i];
        } else {
          assert LegacySegment(syn[|syn| - 1].0, syn[|syn| - 1].1) == Some(s);
        }
      }
    }
  }

  /** Every word with a complete timestamp and a label not yet present gets
      its segment. */
  lemma {:induction false} MigratedComplete(syn: seq<(string, WordEntry)>, existing: set<string>, i: int)
    requires 0 <= i < |syn| && syn[i].0 !in existing && LegacySegment(syn[i].0, syn[i].1).Some?
    ensures LegacySegment(syn[i].0, syn[i].1).value in Migrated(syn, existing)
    decreases |syn|
  {
    var p := syn[..|syn| - 1];
    if i < |syn| - 1 {
      assert syn[i] == p[i];
      MigratedComplete(p, existing, i);
    }
  }

  /** When every word is already a label or has no complete timestamp, the
      pass appends nothing. */
  lemma {:induction false} MigratedNothing(syn: seq<(string, WordEntry)>, existing: set<string>)
    requires forall i :: 0 <= i < |syn| ==> syn[i].0 in existing || LegacySegment(syn[i].0, syn[i].1).None?
    ensures Migrated(syn, existing) == []
    decreases |syn|
  {
    if syn != [] {
      var p := syn[..|syn| - 1];
      forall i | 0 <= i < |p| ensures p[i].0 in existing || LegacySegment(p[i].0, p[i].1).None? {
        assert p[i] == syn[i];
      }
      MigratedNothing(p, existing);
    }
  }

  /** A second pass adds nothing: the pass is idempotent. */
  lemma MigrateIdempotent(v: Verse)
    ensures MigrateVerse(MigrateVerse(v)) == MigrateVerse(v)
  {
    var w := MigrateVerse(v);
    var added := Migrated(v.synonyms, Labels(v.segments));
    assert w.segments == v.segments + added;
    forall i | 0 <= i < |w.synonyms| && LegacySegment(w.synonyms[i].0, w.synonyms[i].1).Some?
      ensures w.synonyms[i].0 in Labels(w.segments)
    {
      var word := v.synonyms[i].0;
      if word in Labels(v.segments) {
        var j :| 0 <= j < |v.segments| && v.segments[j].name == word;
        assert w.segments[j] == v.segments[j];
      } else {
        MigratedComplete(v.synonyms, Labels(v.segments), i);
        var s := LegacySegment(word, v.synonyms[i].1).value;
        var j :| 0 <= j < |added| && added[j] == s;
        assert w.segments[|v.segments| + j] == s;
      }
    }
    MigratedNothing(w.synonyms, Labels(w.segments));
    assert w.segments + [] == w.segments;
  }

  /** With distinct dictionary words (as a dictionary has) the pass appends
      segments with distinct labels, none already present; so a verse whose
      labels were distinct keeps them distinct. */
  lemma MigrateKeepsLabelsDistinct(v: Verse)
    requires DistinctWords(v.synonyms) && DistinctLabels(v.segments)
    ensures DistinctLabels(MigrateVerse(v).segments)
  {
    var ex := Labels(v.segments);
    var added := Migrated(v.synonyms, ex);
    MigratedDistinct(v.synonyms, ex);
    MigratedSound(v.synonyms, ex);
    var all := v.segments + added;
    forall j, k | 0 <= j < k < |all| ensures all[j].name != all[k].name {
      if k >= |v.segments| {
        assert all[k] == added[k - |v.segments|];
        assert all[k] in added;
        if j < |v.segments| {
          assert all[j].name in ex;
        } else {
          assert all[j] == added[j - |v.segments|];
        }
      }
    }
  }

  /** The appended labels are distinct when the dictionary words are. */
  lemma {:induction false} MigratedDistinct(syn: seq<(string, WordEntry)>, existing: set<string>)
    requires DistinctWords(syn)
    ensures DistinctLabels(Migrated(syn, existing))
    decreases |syn|
  {
    if syn != [] {
      var p := syn[..|syn| - 1];
      var w := syn[|syn| - 1];
      assert DistinctWords(p) by {
        forall a, b | 0 <= a < b < |p| ensures p[a].0 != p[b].0 {
          assert p[a] == syn[a] && p[b] == syn[b];
        }
      }
      MigratedDistinct(p, existing);
      MigratedSound(p, existing);
      var m := Migrated(p, existing);
      forall s | s in m ensures s.name != w.0 {
        var i :| 0 <= i < |p| && LegacySegment(p[i].0, p[i].1) == Some(s);
        assert p[i] == syn[i];
      }
    }
  }

  /** Adding one segment adds its label. */
  lemma LabelsAppend(segs: seq<SegmentRecord>, s: SegmentRecord)
    ensures Labels(segs + [s]) == Labels(segs) + {s.name}
  {
    var t := segs + [s];
    assert t[|segs|] == s;
    forall x | x in Labels(segs) ensures x in Labels(t) {
      var i :| 0 <= i < |segs| && segs[i].name == x;
      assert t[i] == segs[i];
    }
  }

  /** The pass on one verse, as the source runs it: collect the existing
      labels, then walk the dictionary appending. */
  method MigrateEntry(v: Verse) returns (w: Verse)
    ensures w == MigrateVerse(v)
  {
    var existing: set<string> := {};
    var k := 0;
    while k < |v.segments|
      invariant 0 <= k <= |v.segments|
      invariant existing == Labels(v.segments[..k])
    {
      LabelsAppend(v.segments[..k], v.segments[k]);
      assert v.segments[..k + 1] == v.segments[..k] + [v.segments[k]];
      existing := existing + {v.segments[k].name};
      k := k + 1;
    }
    assert v.segments[..k] == v.segments;
    var segs := v.segments;
    var i := 0;
    while i < |v.synonyms|
      invariant 0 <= i <= |v.synonyms|
      invariant segs == v.segments + Migrated(v.synonyms[..i], existing)
    {
      var word, data := v.synonyms[i].0, v.synonyms[i].1;
      assert v.synonyms[..i + 1][..i] == v.synonyms[..i];
      if word !in existing && LegacySegment(word, data).Some? {
        segs := segs + [LegacySegment(word, data).value];
      }
      i := i + 1;
    }
    assert v.synonyms[..i] == v.synonyms;
    w := v.(segments := segs);
  }
}
